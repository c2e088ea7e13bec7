/** integrate_face_emotion.py: a seven-way emotion classifier's label
    selection, its greeting table, and a camera loop that speaks one greeting
    for the first detected face. */
module IntegrateFaceEmotion {
  import opened Wrappers
  import Ranking

  /** The classifier's output classes, in the order of its score vector. */
  const Emotions: seq<string> := ["angry", "disgust", "fear", "happy", "sad", "surprise", "neutral"]

  /** What running the classifier on a face crop gives: the score vector, or
      an exception raised anywhere in the preprocessing or the prediction. */
  datatype Prediction = Failed | Scores(values: seq<real>)

  /** `predict_emotion`: the class of the first highest score. Every failure
      — an exception from the classifier, an empty score vector for the
      argmax, or an argmax past the end of `Emotions` — gives "neutral". */
  function PredictEmotion(p: Prediction): (e: string)
    ensures e in Emotions
    ensures p.Failed? || p.values == [] ==> e == "neutral"
    ensures p.Scores? && |p.values| == |Emotions| ==>
              exists k :: 0 <= k < |Emotions| && e == Emotions[k] &&
                (forall i :: 0 <= i < |p.values| ==> p.values[i] <= p.values[k]) &&
                (forall i :: 0 <= i < k ==> p.values[i] < p.values[k])
  {
    if p.Failed? || p.values == [] then "neutral"
    else
      var k := Ranking.FirstArgMax(p.values);
      if k < |Emotions| then Emotions[k] else "neutral"
  }

  /** The classes are seven distinct names, so a class names one position. */
  lemma EmotionsDistinct(i: nat, j: nat)
    requires i < |Emotions| && j < |Emotions| && Emotions[i] == Emotions[j]
    ensures i == j
  {
  }

  /** The greeting texts per class (the dictionary in `greeting_from_emotion`). */
  const Greetings: map<string, string> := map[
    "happy" := "You look happy today!",
    "sad" := "You seem a bit down. I'm here.",
    "angry" := "You look upset. Take a deep breath.",
    "fear" := "You seem anxious. Everything will be okay.",
    "surprise" := "Oh! You look surprised!",
    "disgust" := "Hmm. Something feels off.",
    "neutral" := "Hello! Nice to see you."
  ]

  /** `greeting_from_emotion`: the table's text for a known class, "Hello!"
      for anything else; the fallback is given exactly for unknown classes. */
  function GreetingFromEmotion(emotion: string): (g: string)
    ensures g == "Hello!" <==> emotion !in Greetings
    ensures emotion in Greetings ==> g == Greetings[emotion]
  {
    if emotion in Greetings then Greetings[emotion] else "Hello!"
  }

  /** The table covers exactly the seven classes. */
  lemma GreetingTableKeys(e: string)
    ensures e in Greetings <==> e in Emotions
  {
  }

  /** Each class has its own text, never the fallback. */
  lemma GreetingPerEmotion(i: nat, j: nat)
    requires i < |Emotions| && j < |Emotions| && i != j
    ensures GreetingFromEmotion(Emotions[i]) != "Hello!"
    ensures GreetingFromEmotion(Emotions[i]) != GreetingFromEmotion(Emotions[j])
  {
  }

  /** One pass of the camera loop: the capture failed, or a frame was read
      with the first face detection's prediction (None when no face was
      detected) and whether the `q` key was pressed after it was shown. */
  datatype Capture = Unread | Captured(face: Option<Prediction>, quit: bool)

  /** Capture `i` is where the greeting is given: it has a face, and every
      capture before it was read, had no face and did not quit. */
  ghost predicate GreetedAt(captures: seq<Capture>, i: int) {
    && 0 <= i < |captures|
    && captures[i].Captured? && captures[i].face.Some?
    && forall k :: 0 <= k < i ==> captures[k].Captured? && captures[k].face.None? && !captures[k].quit
  }

  /** The greeting the loop speaks over `captures`, starting ungreeted: the
      one for the first face's class, or none when the loop ends before any
      face. */
  function FirstGreeting(captures: seq<Capture>): Option<string> {
    if captures == [] || captures[0].Unread? then None
    else if captures[0].face.Some? then Some(GreetingFromEmotion(PredictEmotion(captures[0].face.value)))
    else if captures[0].quit then None
    else FirstGreeting(captures[1..])
  }

  /** There is a greeting exactly when some capture is where the greeting is
      given, and it is the greeting for that capture's face. */
  lemma {:induction false} FirstGreetingIsFirstFace(captures: seq<Capture>)
    ensures FirstGreeting(captures).None? <==> forall i :: !GreetedAt(captures, i)
    ensures FirstGreeting(captures).Some? ==>
              exists i :: GreetedAt(captures, i) &&
                FirstGreeting(captures).value == GreetingFromEmotion(PredictEmotion(captures[i].face.value))
  {
    if captures == [] || captures[0].Unread? {
    } else if captures[0].face.Some? {
      assert GreetedAt(captures, 0);
    } else if captures[0].quit {
    } else {
      FirstGreetingIsFirstFace(captures[1..]);
      ShiftGreetedAt(captures);
    }
  }

  /** Past a first capture that was read, had no face and did not quit, the
      greeting position moves by one. */
  lemma ShiftGreetedAt(captures: seq<Capture>)
    requires captures != [] && captures[0].Captured? && captures[0].face.None? && !captures[0].quit
    ensures forall i :: GreetedAt(captures, i) <==> i > 0 && GreetedAt(captures[1..], i - 1)
    ensures forall j :: GreetedAt(captures[1..], j) ==> GreetedAt(captures, j + 1) && captures[j + 1] == captures[1..][j]
  {
  }

  /** How `FirstGreeting` of the captures from `i` on depends on capture `i`. */
  lemma FirstGreetingFrom(captures: seq<Capture>, i: nat)
    requires i < |captures|
    ensures var c := captures[i];
            FirstGreeting(captures[i..]) ==
              if c.Unread? then None
              else if c.face.Some? then Some(GreetingFromEmotion(PredictEmotion(c.face.value)))
              else if c.quit then None
              else FirstGreeting(captures[i + 1..])
  {
  }

  /** The state of the main loop: the `greeted` flag, and `spoken`, the texts
      handed to `speak`, in order. */
  class Greeter {
    var greeted: bool
    var spoken: seq<string>

    /** At most one greeting, and `greeted` records whether it was given. */
    ghost predicate Valid()
      reads this
    {
      |spoken| <= 1 && (greeted <==> |spoken| == 1)
    }

    constructor ()
      ensures Valid() && !greeted && spoken == []
    {
      greeted := false;
      spoken := [];
    }

    /** One pass of the loop; `stop` says whether the loop ends here. A face
        is greeted only while `greeted` is false, and the greeting is the
        one for the class `predict_emotion` returns. */
    method Step(c: Capture) returns (stop: bool)
      requires Valid()
      modifies this
      ensures Valid()
      ensures stop <==> c.Unread? || c.quit
      ensures if !old(greeted) && c.Captured? && c.face.Some?
              then greeted && spoken == [GreetingFromEmotion(PredictEmotion(c.face.value))]
              else unchanged(this)
    {
      if c.Unread? {
        return true;
      }
      if c.face.Some? && !greeted {
        var emotion := PredictEmotion(c.face.value);
        var greeting := GreetingFromEmotion(emotion);
        spoken := spoken + [greeting];
        greeted := true;
      }
      stop := c.quit;
    }

    /** The main loop over the captures until a read fails or `q` is
        pressed. Started ungreeted, it speaks exactly `FirstGreeting`; once
        greeted, it never speaks again. */
    method Run(captures: seq<Capture>)
      requires Valid()
      modifies this
      ensures Valid()
      ensures old(greeted) ==> unchanged(this)
      ensures !old(greeted) ==>
                match FirstGreeting(captures)
                case None => unchanged(this)
                case Some(g) => greeted && spoken == [g]
    {
      var i := 0;
      while i < |captures|
        invariant 0 <= i <= |captures|
        invariant Valid()
        invariant old(greeted) ==> unchanged(this)
        invariant !old(greeted) && !greeted ==>
                    unchanged(this) && FirstGreeting(captures) == FirstGreeting(captures[i..])
        invariant !old(greeted) && greeted ==> FirstGreeting(captures) == Some(spoken[0])
      {
        FirstGreetingFrom(captures, i);
        var stop := Step(captures[i]);
        if stop {
          return;
        }
        i := i + 1;
      }
    }
  }
}
