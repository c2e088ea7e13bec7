/** face_emotion.py: the hospital greeting table and the background emotion
    engine, which greets the first face it sees once and publishes the text
    in the shared `latest_greeting` slot. */
module FaceEmotion {
  import opened Wrappers
  import opened Collections
  import opened Geometry

  /** The greeting texts per label (the dictionary in `greeting_from_emotion`). */
  const Greetings: map<string, string> := map[
    "happy" := "You look happy today. Welcome to our hospital.",
    "surprised" := "Hello! You seem surprised. How may I help you?",
    "sad" := "Hello. If you\U{2019}re feeling low, I\U{2019}m here to help.",
    "angry" := "Hello. Take a breath. I\U{2019}m here to assist you.",
    "neutral" := "Hello! Welcome to our hospital assistant."
  ]

  /** `greeting_from_emotion`: the table's text for a known label, "Hello!"
      for anything else; the fallback is given exactly for unknown labels. */
  function GreetingFromEmotion(emotion: string): (g: string)
    ensures g == "Hello!" <==> emotion !in Greetings
    ensures emotion in Greetings ==> g == Greetings[emotion]
  {
    if emotion in Greetings then Greetings[emotion] else "Hello!"
  }

  /** Every label the classifier returns has its own greeting: the fallback is
      never used for them, and different labels are greeted differently. */
  lemma GreetingPerLabel(l: Label, m: Label)
    ensures l.Name() in Greetings && GreetingFromEmotion(l.Name()) != "Hello!"
    ensures l != m ==> GreetingFromEmotion(l.Name()) != GreetingFromEmotion(m.Name())
  {
  }

  /** The `maxlen` of the engine's smoother. */
  const SmootherWindow := 15

  /** What the engine's loop does over a sequence of captures, read from the
      front: the first capture holding a face decides everything. Its label
      is greeted, or its `detect_emotion` fault ends the thread; with no face
      at all nothing happens. */
  function FirstDetection(frames: seq<Frame>, dist: Metric): Result<Option<Label>, Fault>
    requires IsMetric(dist)
  {
    if frames == [] then Ok(None)
    else if frames[0].Face? then
      match DetectEmotion(frames[0].points, dist)
      case Err(f) => Err(f)
      case Ok(l) => Ok(Some(l))
    else FirstDetection(frames[1..], dist)
  }

  /** `FirstDetection` is nothing exactly when no capture holds a face, and
      otherwise the outcome of `detect_emotion` on the first face. */
  lemma {:induction false} FirstDetectionIsFirstFace(frames: seq<Frame>, dist: Metric)
    requires IsMetric(dist)
    ensures FirstDetection(frames, dist) == Ok(None) <==> forall i :: 0 <= i < |frames| ==> !frames[i].Face?
    ensures FirstDetection(frames, dist) != Ok(None) ==>
              exists i :: 0 <= i < |frames| && frames[i].Face? &&
                (forall k :: 0 <= k < i ==> !frames[k].Face?) &&
                FirstDetection(frames, dist) == (match DetectEmotion(frames[i].points, dist)
                                                 case Err(f) => Err(f)
                                                 case Ok(l) => Ok(Some(l)))
  {
    if frames != [] && !frames[0].Face? {
      var rest := FirstDetection(frames[1..], dist);
      FirstDetectionIsFirstFace(frames[1..], dist);
      assert forall i :: 0 < i < |frames| ==> frames[i] == frames[1..][i - 1];
      if rest != Ok(None) {
        var j :| 0 <= j < |frames[1..]| && frames[1..][j].Face? &&
                 (forall k :: 0 <= k < j ==> !frames[1..][k].Face?) &&
                 rest == (match DetectEmotion(frames[1..][j].points, dist)
                          case Err(f) => Err(f)
                          case Ok(l) => Ok(Some(l)));
        assert frames[j + 1] == frames[1..][j];
      }
    }
  }

  /** The state of `start_emotion_engine`: its `smoother` deque and `greeted`
      flag, and the module-level `latest_greeting` slot it writes. */
  class EmotionEngine {
    var smoother: seq<Label>
    var greeted: bool
    var latestGreeting: Option<string>

    /** Until the greeting fires, nothing has been fed or published; after it,
        the smoother holds the one label that was greeted and the slot holds
        that label's greeting. */
    ghost predicate Valid()
      reads this
    {
      && |smoother| <= SmootherWindow
      && (greeted <==> latestGreeting.Some?)
      && (!greeted ==> smoother == [])
      && (greeted ==> |smoother| == 1 && latestGreeting == Some(GreetingFromEmotion(smoother[0].Name())))
    }

    constructor ()
      ensures Valid() && smoother == [] && !greeted && latestGreeting == None
    {
      smoother := [];
      greeted := false;
      latestGreeting := None;
    }

    /** The greeting branch for a detected `emotion`: feed the smoother, take
        its most common label and publish that label's greeting. The smoother
        was empty, so the label voted for is `emotion` itself. */
    method Greet(emotion: Label)
      requires Valid() && !greeted
      modifies this
      ensures Valid() && greeted
      ensures smoother == [emotion] && latestGreeting == Some(GreetingFromEmotion(emotion.Name()))
    {
      smoother := DequeAppend(smoother, emotion, SmootherWindow);
      MostCommonSingleton(emotion);
      var stable := MostCommon(smoother).value;
      latestGreeting := Some(GreetingFromEmotion(stable.Name()));
      greeted := true;
    }

    /** One pass of the engine's loop. An unread capture, a capture without a
        face, or any capture once greeted changes nothing; otherwise the face
        is classified, and a fault of `detect_emotion` is reported (it ends
        the thread) while a label is greeted. */
    method Step(frame: Frame, dist: Metric) returns (fault: Option<Fault>)
      requires Valid() && IsMetric(dist)
      modifies this
      ensures Valid()
      ensures old(greeted) || !frame.Face? ==> fault.None? && unchanged(this)
      ensures !old(greeted) && frame.Face? ==>
                match DetectEmotion(frame.points, dist)
                case Err(f) => fault == Some(f) && unchanged(this)
                case Ok(l) => fault.None? && greeted && smoother == [l] &&
                              latestGreeting == Some(GreetingFromEmotion(l.Name()))
    {
      fault := None;
      if frame.Face? && !greeted {
        var detected := DetectEmotion(frame.points, dist);
        if detected.Err? {
          fault := Some(detected.error);
        } else {
          Greet(detected.value);
        }
      }
    }

    /** The engine's loop over the captures it reads. Before the greeting, the
        first face decides the outcome as `FirstDetection` says; once greeted,
        nothing changes again, so `latest_greeting` is written at most once,
        from None to the greeting of the first label detected. */
    method Run(frames: seq<Frame>, dist: Metric) returns (fault: Option<Fault>)
      requires Valid() && IsMetric(dist)
      modifies this
      ensures Valid()
      ensures old(greeted) ==> fault.None? && unchanged(this)
      ensures !old(greeted) ==>
                match FirstDetection(frames, dist)
                case Err(f) => fault == Some(f) && unchanged(this)
                case Ok(None) => fault.None? && unchanged(this)
                case Ok(Some(l)) => fault.None? && greeted && smoother == [l] &&
                                    latestGreeting == Some(GreetingFromEmotion(l.Name()))
    {
      fault := None;
      var i := 0;
      while i < |frames|
        invariant 0 <= i <= |frames|
        invariant Valid() && fault.None?
        invariant old(greeted) ==> unchanged(this)
        invariant !old(greeted) && !greeted ==>
                    unchanged(this) && FirstDetection(frames, dist) == FirstDetection(frames[i..], dist)
        invariant !old(greeted) && greeted ==> FirstDetection(frames, dist) == Ok(Some(smoother[0]))
      {
        ghost var wasGreeted := greeted;
        var f := Step(frames[i], dist);
        if f.Some? {
          fault := f;
          return;
        }
        assert !wasGreeted && !frames[i].Face? ==> frames[i..][1..] == frames[i + 1..];
        i := i + 1;
      }
    }
  }
}
