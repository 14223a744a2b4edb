/**
 * The hand-gesture classifier of gesture_controll.py: a fixed table of
 * threshold rules over the 21 landmarks the hand tracker reports for one
 * hand. Coordinates are normalised image coordinates, with y growing
 * downwards, so a fingertip "above" its knuckle has the smaller y.
 */
module GestureClassifier {
  import opened Wrappers

  /** One tracked hand joint; the tracker's depth coordinate is never read. */
  datatype Landmark = Landmark(x: real, y: real)

  const LandmarkCount: nat := 21

  /** The landmarks of one hand, in the tracker's fixed joint order. */
  type Hand = h: seq<Landmark> | |h| == LandmarkCount
    witness seq(LandmarkCount, _ => Landmark(0.0, 0.0))

  // Joint indices in the tracker's numbering.
  const Wrist: nat := 0
  const ThumbTip: nat := 4
  const IndexMcp: nat := 5
  const IndexTip: nat := 8
  const MiddleMcp: nat := 9
  const MiddleTip: nat := 12
  const RingMcp: nat := 13
  const RingTip: nat := 16
  const PinkyMcp: nat := 17
  const PinkyTip: nat := 20

  /** Minimum index-middle spread of an open palm. */
  const SpreadThreshold: real := 0.03
  /** Minimum vertical thumb-wrist distance of a thumbs-up or thumbs-down. */
  const ThumbThreshold: real := 0.05

  datatype Gesture = Start | Previous | Next | End

  /** The values the classifier computes on the way, shown on screen. */
  datatype Diagnostics = Diagnostics(
    extendedFingers: nat,
    thumbWristYDiff: real,
    fingerSpread: real,
    fingerStates: seq<bool>)

  datatype Classification = Classification(gesture: Option<Gesture>, diagnostics: Diagnostics)

  /** True when `h` and `h'` place joint `i` at the same point. */
  predicate SameJoint(h: Hand, h': Hand, i: nat)
    requires i < LandmarkCount
  {
    h[i] == h'[i]
  }

  /** A finger is extended when its tip lies above its knuckle. */
  predicate Extended(h: Hand, tip: nat, mcp: nat)
    requires tip < LandmarkCount && mcp < LandmarkCount
  {
    h[tip].y < h[mcp].y
  }

  /** Extended/curled state of index, middle, ring and pinky, in that order. */
  function FingerStates(h: Hand): (f: seq<bool>)
    ensures |f| == 4
  {
    [ Extended(h, IndexTip, IndexMcp),
      Extended(h, MiddleTip, MiddleMcp),
      Extended(h, RingTip, RingMcp),
      Extended(h, PinkyTip, PinkyMcp) ]
  }

  /** Number of true entries of `s`. */
  function CountTrue(s: seq<bool>): (n: nat)
    ensures n <= |s|
    ensures n == 0 <==> forall i :: 0 <= i < |s| ==> !s[i]
    ensures n == |s| <==> forall i :: 0 <= i < |s| ==> s[i]
  {
    if s == [] then 0 else (if s[0] then 1 else 0) + CountTrue(s[1..])
  }

  /** Number of extended fingers; the thumb is not among them. */
  function ExtendedFingers(h: Hand): (n: nat)
    ensures n <= 4
  {
    CountTrue(FingerStates(h))
  }

  function Abs(d: real): (r: real)
    ensures r >= 0.0 && (r == d || r == -d)
  {
    if d < 0.0 then -d else d
  }

  /** Horizontal distance of the index and middle fingertips, or 0 for a fist. */
  function FingerSpread(h: Hand): (r: real)
    ensures r >= 0.0
    ensures ExtendedFingers(h) == 0 ==> r == 0.0
  {
    if ExtendedFingers(h) >= 1 then Abs(h[IndexTip].x - h[MiddleTip].x) else 0.0
  }

  /** Thumb tip height relative to the wrist; negative means thumb up. */
  function ThumbWristYDiff(h: Hand): (d: real)
  {
    h[ThumbTip].y - h[Wrist].y
  }

  predicate IsOpenPalm(h: Hand)
  {
    ExtendedFingers(h) >= 3 && FingerSpread(h) > SpreadThreshold
  }

  /** Index and middle extended, ring and pinky curled. */
  predicate IsPeaceSign(h: Hand)
  {
    FingerStates(h) == [true, true, false, false]
  }

  /**
   * The classifier: four rules tried in a fixed order, the first that holds
   * decides. Each result is characterised on its own, which shows that the
   * rules never overlap once the order is taken into account.
   */
  function Classify(h: Hand): (c: Classification)
    ensures c.gesture == Some(End) <==> IsOpenPalm(h)
    ensures c.gesture == Some(Start) <==> IsPeaceSign(h)
    ensures c.gesture == Some(Previous) <==> ExtendedFingers(h) == 0 && ThumbWristYDiff(h) < -ThumbThreshold
    ensures c.gesture == Some(Next) <==> ExtendedFingers(h) == 0 && ThumbWristYDiff(h) > ThumbThreshold
    ensures c.gesture == None <==>
      !IsOpenPalm(h) && !IsPeaceSign(h) && (ExtendedFingers(h) != 0 || Abs(ThumbWristYDiff(h)) <= ThumbThreshold)
    ensures c.diagnostics == Diagnostics(ExtendedFingers(h), ThumbWristYDiff(h), FingerSpread(h), FingerStates(h))
    ensures c.diagnostics.extendedFingers <= 4 && c.diagnostics.fingerSpread >= 0.0
  {
    var fingers := FingerStates(h);
    var extended := ExtendedFingers(h);
    var spread := FingerSpread(h);
    var thumb := ThumbWristYDiff(h);
    var diagnostics := Diagnostics(extended, thumb, spread, fingers);
    PeaceSignCount(h);
    var gesture :=
      if extended >= 3 && spread > SpreadThreshold then Some(End)
      else if extended == 2 && fingers[0] && fingers[1] && !fingers[2] && !fingers[3] then Some(Start)
      else if thumb < -ThumbThreshold && extended == 0 then Some(Previous)
      else if thumb > ThumbThreshold && extended == 0 then Some(Next)
      else None;
    Classification(gesture, diagnostics)
  }

  /** The peace-sign pattern has exactly two extended fingers. */
  lemma PeaceSignCount(h: Hand)
    ensures IsPeaceSign(h) ==> ExtendedFingers(h) == 2
  {
    var f := FingerStates(h);
    if f == [true, true, false, false] {
      assert f[1..][1..][1..] == [false];
      assert CountTrue(f[1..][1..]) == 0;
      assert CountTrue(f[1..]) == 1;
    }
  }

  /**
   * Only the tip and knuckle joints of the four fingers take part in the count and the
   * spread: two hands that agree on them agree on both, whatever the thumb
   * and wrist do.
   */
  lemma ThumbExcludedFromCount(h: Hand, h': Hand)
    requires SameJoint(h, h', IndexTip) && SameJoint(h, h', IndexMcp)
    requires SameJoint(h, h', MiddleTip) && SameJoint(h, h', MiddleMcp)
    requires SameJoint(h, h', RingTip) && SameJoint(h, h', RingMcp)
    requires SameJoint(h, h', PinkyTip) && SameJoint(h, h', PinkyMcp)
    ensures FingerStates(h) == FingerStates(h')
    ensures ExtendedFingers(h) == ExtendedFingers(h')
    ensures FingerSpread(h) == FingerSpread(h')
  {
  }

  /**
   * End and Start do not depend on the thumb: moving only the thumb tip and
   * the wrist changes neither result.
   */
  lemma EndAndStartIgnoreThumb(h: Hand, h': Hand)
    requires forall i :: 0 <= i < LandmarkCount && i != ThumbTip && i != Wrist ==> SameJoint(h, h', i)
    ensures Classify(h).gesture == Some(End) <==> Classify(h').gesture == Some(End)
    ensures Classify(h).gesture == Some(Start) <==> Classify(h').gesture == Some(Start)
  {
    assert SameJoint(h, h', IndexTip) && SameJoint(h, h', IndexMcp);
    assert SameJoint(h, h', MiddleTip) && SameJoint(h, h', MiddleMcp);
    assert SameJoint(h, h', RingTip) && SameJoint(h, h', RingMcp);
    assert SameJoint(h, h', PinkyTip) && SameJoint(h, h', PinkyMcp);
    ThumbExcludedFromCount(h, h');
  }

  /**
   * The gesture seen in one camera frame: the classification of the hand
   * when the tracker found one, no gesture otherwise.
   */
  function DetectGesture(hand: Option<Hand>): (g: Option<Gesture>)
    ensures hand.None? ==> g.None?
    ensures hand.Some? ==> g == Classify(hand.value).gesture
  {
    match hand
    case None => None
    case Some(h) => Classify(h).gesture
  }
}
