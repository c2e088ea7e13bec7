/** `detect_emotion`, the geometric expression heuristic that
    emotion_greeting_assistant.py and face_emotion.py both carry, line for line
    the same: eight landmarks, three distances normalised by the mouth width,
    and an ordered chain of thresholds. */
module Geometry {
  import opened Wrappers

  /** One camera capture: no image, an image without a face, or the face's landmarks. */
  datatype Frame = Unread | NoFace | Face(points: seq<Point>)

  /** A landmark in frame pixels. */
  datatype Point = Point(x: int, y: int)

  /** The Euclidean distance between two landmarks (`math.dist`), supplied
      from outside: square roots are not part of this model. */
  type Metric = (Point, Point) -> real

  /** A distance is never negative. */
  ghost predicate IsMetric(dist: Metric) {
    forall p, q :: dist(p, q) >= 0.0
  }

  /** The exceptions `detect_emotion` can raise. */
  datatype Fault = IndexError | ZeroDivisionError

  /** The expression labels `detect_emotion` returns. */
  datatype Label = Happy | Surprised | Sad | Angry | Neutral {
    /** The label as the source spells it. */
    function Name(): string {
      match this
      case Happy => "happy"
      case Surprised => "surprised"
      case Sad => "sad"
      case Angry => "angry"
      case Neutral => "neutral"
    }
  }

  /** Mouth opening, eye opening and eyebrow-to-eye distance, each divided by the mouth width. */
  datatype Ratios = Ratios(mouth: real, eye: real, brow: real)

  /** Landmark indices the heuristic reads. */
  const LeftMouth := 61
  const RightMouth := 291
  const TopLip := 13
  const BottomLip := 14
  const EyeTop := 159
  const EyeBottom := 145
  const Eyebrow := 105
  const EyeCenter := 33

  /** The four distances, between the mouth corners, the lips, the eyelids,
      and the eyebrow and the eye centre. */
  function MouthWidth(landmarks: seq<Point>, dist: Metric): real
    requires |landmarks| > RightMouth
  {
    dist(landmarks[LeftMouth], landmarks[RightMouth])
  }

  function MouthOpen(landmarks: seq<Point>, dist: Metric): real
    requires |landmarks| > RightMouth
  {
    dist(landmarks[TopLip], landmarks[BottomLip])
  }

  function EyeOpen(landmarks: seq<Point>, dist: Metric): real
    requires |landmarks| > RightMouth
  {
    dist(landmarks[EyeTop], landmarks[EyeBottom])
  }

  function BrowDist(landmarks: seq<Point>, dist: Metric): real
    requires |landmarks| > RightMouth
  {
    dist(landmarks[Eyebrow], landmarks[EyeCenter])
  }

  /** The first half of `detect_emotion`: read the eight landmarks and
      normalise three distances by the mouth width. A list too short for index
      291 raises IndexError; coinciding mouth corners raise ZeroDivisionError.
 */
  function Features(landmarks: seq<Point>, dist: Metric): (r: Result<Ratios, Fault>)
    requires IsMetric(dist)
    ensures r == Err(IndexError) <==> |landmarks| <= RightMouth
    ensures r == Err(ZeroDivisionError) <==>
              |landmarks| > RightMouth && MouthWidth(landmarks, dist) == 0.0
    ensures r.Ok? ==> MouthWidth(landmarks, dist) > 0.0
  {
    if |landmarks| <= RightMouth then Err(IndexError)
    else
      var width := MouthWidth(landmarks, dist);
      if width == 0.0 then Err(ZeroDivisionError)
      else
        Ok(Ratios(MouthOpen(landmarks, dist) / width,
                  EyeOpen(landmarks, dist) / width,
                  BrowDist(landmarks, dist) / width))
  }

  /** Each ratio is non-negative, and times the mouth width gives back its distance. */
  lemma FeaturesRecoverDistances(landmarks: seq<Point>, dist: Metric)
    requires IsMetric(dist) && Features(landmarks, dist).Ok?
    ensures var r, w := Features(landmarks, dist).value, MouthWidth(landmarks, dist);
            && r.mouth * w == MouthOpen(landmarks, dist)
            && r.eye * w == EyeOpen(landmarks, dist)
            && r.brow * w == BrowDist(landmarks, dist)
            && r.mouth >= 0.0 && r.eye >= 0.0 && r.brow >= 0.0
  {
  }

  /** The second half of `detect_emotion`: an ordered threshold chain in which
      the first rule that matches wins. Each label is given here by the region
      of ratios that yields it, so the regions are disjoint and cover all ratios. */
  function Classify(r: Ratios): (l: Label)
    ensures l == Surprised <==> r.mouth > 0.30
    ensures l == Happy <==> 0.18 < r.mouth <= 0.30
    ensures l == Angry <==> r.mouth <= 0.18 && r.brow < 0.07
    ensures l == Sad <==> r.mouth <= 0.18 && r.brow >= 0.07 && r.eye < 0.03
    ensures l == Neutral <==> r.mouth <= 0.18 && r.brow >= 0.07 && r.eye >= 0.03
  {
    if r.mouth > 0.30 then Surprised
    else if r.mouth > 0.18 then Happy
    else if r.brow < 0.07 then Angry
    else if r.eye < 0.03 then Sad
    else Neutral
  }

  /** `detect_emotion` whole: it raises exactly when the list is too short or
      the mouth corners coincide. */
  function DetectEmotion(landmarks: seq<Point>, dist: Metric): (r: Result<Label, Fault>)
    requires IsMetric(dist)
    ensures r.Err? <==> |landmarks| <= RightMouth || MouthWidth(landmarks, dist) == 0.0
    ensures r.Err? ==> r.error == (if |landmarks| <= RightMouth then IndexError else ZeroDivisionError)
  {
    match Features(landmarks, dist)
    case Err(f) => Err(f)
    case Ok(ratios) => Ok(Classify(ratios))
  }

  /** The decision of `detect_emotion` stated on the raw distances, without
      any division: each threshold on a ratio is the same threshold times the
      mouth width on the distance. */
  lemma DetectEmotionOnDistances(landmarks: seq<Point>, dist: Metric)
    requires IsMetric(dist) && DetectEmotion(landmarks, dist).Ok?
    ensures var l := DetectEmotion(landmarks, dist).value;
            var w, open := MouthWidth(landmarks, dist), MouthOpen(landmarks, dist);
            var eye, brow := EyeOpen(landmarks, dist), BrowDist(landmarks, dist);
            && (l == Surprised <==> open > 0.30 * w)
            && (l == Happy <==> 0.18 * w < open <= 0.30 * w)
            && (l == Angry <==> open <= 0.18 * w && brow < 0.07 * w)
            && (l == Sad <==> open <= 0.18 * w && brow >= 0.07 * w && eye < 0.03 * w)
            && (l == Neutral <==> open <= 0.18 * w && brow >= 0.07 * w && eye >= 0.03 * w)
  {
    var ratios := Features(landmarks, dist).value;
    FeaturesRecoverDistances(landmarks, dist);
    ClassifyOnDistances(ratios, MouthWidth(landmarks, dist), MouthOpen(landmarks, dist),
                        EyeOpen(landmarks, dist), BrowDist(landmarks, dist));
  }

  /** The threshold chain restated on distances, for a positive mouth width. */
  lemma ClassifyOnDistances(r: Ratios, w: real, open: real, eye: real, brow: real)
    requires w > 0.0 && r.mouth * w == open && r.eye * w == eye && r.brow * w == brow
    ensures Classify(r) == Surprised <==> open > 0.30 * w
    ensures Classify(r) == Happy <==> 0.18 * w < open <= 0.30 * w
    ensures Classify(r) == Angry <==> open <= 0.18 * w && brow < 0.07 * w
    ensures Classify(r) == Sad <==> open <= 0.18 * w && brow >= 0.07 * w && eye < 0.03 * w
    ensures Classify(r) == Neutral <==> open <= 0.18 * w && brow >= 0.07 * w && eye >= 0.03 * w
  {
    ScaleCompare(r.mouth, w, 0.30);
    ScaleCompare(r.mouth, w, 0.18);
    ScaleCompare(r.brow, w, 0.07);
    ScaleCompare(r.eye, w, 0.03);
    assert 0.18 < r.mouth <==> 0.18 * w < open;
    assert r.mouth <= 0.30 <==> r.mouth * w <= 0.30 * w;
  }

  /** Multiplying both sides by a positive width keeps a comparison. */
  lemma ScaleCompare(x: real, w: real, c: real)
    requires w > 0.0
    ensures x > c <==> x * w > c * w
    ensures x < c <==> x * w < c * w
    ensures x <= c <==> x * w <= c * w
    ensures x >= c <==> x * w >= c * w
  {
  }

  /** Scaling every distance by the same positive factor (the face nearer to or
      further from the camera) changes no ratio, so no label either. */
  lemma FeaturesScaleInvariant(landmarks: seq<Point>, dist: Metric, scaled: Metric, k: real)
    requires IsMetric(dist) && IsMetric(scaled) && k > 0.0
    requires forall p, q :: scaled(p, q) == k * dist(p, q)
    ensures Features(landmarks, scaled) == Features(landmarks, dist)
  {
    if |landmarks| > RightMouth {
      var w := MouthWidth(landmarks, dist);
      assert MouthWidth(landmarks, scaled) == k * w;
      if w != 0.0 {
        var open, eye, brow := MouthOpen(landmarks, dist), EyeOpen(landmarks, dist), BrowDist(landmarks, dist);
        assert k * w != 0.0;
        assert MouthOpen(landmarks, scaled) == k * open;
        assert EyeOpen(landmarks, scaled) == k * eye;
        assert BrowDist(landmarks, scaled) == k * brow;
        Rescale(open, w, k);
        Rescale(eye, w, k);
        Rescale(brow, w, k);
        calc {
          Features(landmarks, scaled);
          Ok(Ratios((k * open) / (k * w), (k * eye) / (k * w), (k * brow) / (k * w)));
          Ok(Ratios(open / w, eye / w, brow / w));
          Features(landmarks, dist);
        }
      }
    }
  }

  /** Cancelling a common positive factor. */
  lemma Rescale(a: real, w: real, k: real)
    requires w != 0.0 && k > 0.0
    ensures (k * a) / (k * w) == a / w
  {
  }
}
