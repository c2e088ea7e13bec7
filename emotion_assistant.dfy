/** emotion_greeting_assistant.py: the label smoother, the greeting table and
    the cooldown-gated greeting of its camera loop. */
module EmotionAssistant {
  import opened Wrappers
  import opened Collections
  import opened Geometry

  /** The greeting texts per label (the `greetings` dictionary). */
  const Greetings: map<string, string> := map[
    "happy" := "You look happy today. Hello!",
    "surprised" := "Oh! You look surprised. Hello there!",
    "sad" := "Hey\U{00E2}\U{20AC}\U{00A6} everything okay? I'm here.",
    "angry" := "Hello. Take a breath, no rush.",
    "neutral" := "Hello! How can I help you?"
  ]

  /** `greeting_from_emotion`: the table's text for a known label, "Hello!"
      for anything else; the fallback is given exactly for unknown labels. */
  function GreetingFromEmotion(emotion: string): (g: string)
    ensures g == "Hello!" <==> emotion !in Greetings
    ensures emotion in Greetings ==> g == Greetings[emotion]
  {
    if emotion in Greetings then Greetings[emotion] else "Hello!"
  }

  /** Every label the classifier returns has its own greeting: the fallback is
      never used for them, and different labels are greeted differently. */
  lemma GreetingPerLabel(l: Label, m: Label)
    ensures l.Name() in Greetings && GreetingFromEmotion(l.Name()) != "Hello!"
    ensures l != m ==> GreetingFromEmotion(l.Name()) != GreetingFromEmotion(m.Name())
  {
  }

  /** `EmotionSmoother`: a bounded window of recent labels and its majority vote. */
  class EmotionSmoother {
    const size: nat
    var buffer: seq<Label>

    ghost predicate Valid()
      reads this
    {
      |buffer| <= size
    }

    constructor (size: nat)
      ensures Valid() && this.size == size && buffer == []
    {
      this.size := size;
      buffer := [];
    }

    /** Append a label and return the most common label of the window, or None
        where `most_common(1)[0]` raises IndexError because `size` is 0. */
    method Update(emotion: Label) returns (stable: Option<Label>)
      requires Valid()
      modifies this
      ensures Valid()
      ensures buffer == DequeAppend(old(buffer), emotion, size)
      ensures stable == MostCommon(buffer)
      ensures size > 0 ==> stable.Some? && buffer[|buffer| - 1] == emotion
    {
      buffer := DequeAppend(buffer, emotion, size);
      assert size > 0 ==> |buffer| > 0;
      stable := MostCommon(buffer);
    }
  }

  /** Window of the smoother and seconds between greetings. */
  const EmotionWindow := 15
  const GreetingCooldown := 15.0

  /** The state `main` keeps between frames. `spoken` records what was handed
      to `speak`, in order. */
  class Assistant {
    const smoother: EmotionSmoother
    var greeted: bool
    var lastGreet: real
    var spoken: seq<string>

    /** The greeting is spoken at most once, and `greeted` records whether it was. */
    ghost predicate Valid()
      reads this, smoother
    {
      && smoother.Valid()
      && smoother.size == EmotionWindow
      && |spoken| <= 1
      && (greeted <==> |spoken| == 1)
    }

    constructor ()
      ensures Valid() && fresh(smoother)
      ensures smoother.buffer == [] && !greeted && lastGreet == 0.0 && spoken == []
    {
      smoother := new EmotionSmoother(EmotionWindow);
      greeted := false;
      lastGreet := 0.0;
      spoken := [];
    }

    /** The face branch of `main`'s loop once `detect_emotion` gave `emotion`
        at clock time `now`: feed the smoother, then consider greeting. */
    method Observe(emotion: Label, now: real) returns (stable: Label)
      requires Valid()
      modifies this, smoother
      ensures Valid()
      ensures smoother.buffer == DequeAppend(old(smoother.buffer), emotion, EmotionWindow)
      ensures Some(stable) == MostCommon(smoother.buffer)
      ensures if !old(greeted) && now - old(lastGreet) > GreetingCooldown
              then greeted && lastGreet == now && spoken == old(spoken) + [GreetingFromEmotion(stable.Name())]
              else greeted == old(greeted) && lastGreet == old(lastGreet) && spoken == old(spoken)
    {
      assert smoother.size > 0;
      var vote := smoother.Update(emotion);
      stable := vote.value;
      MaybeGreet(stable, now);
    }

    /** The greeting trigger: when nobody has been greeted and more than the
        cooldown has passed since `lastGreet`, speak the greeting for `stable`
        and record the time. */
    method MaybeGreet(stable: Label, now: real)
      requires Valid()
      modifies this
      ensures Valid()
      ensures if !old(greeted) && now - old(lastGreet) > GreetingCooldown
              then greeted && lastGreet == now && spoken == old(spoken) + [GreetingFromEmotion(stable.Name())]
              else greeted == old(greeted) && lastGreet == old(lastGreet) && spoken == old(spoken)
    {
      if !greeted && now - lastGreet > GreetingCooldown {
        var greeting := GreetingFromEmotion(stable.Name());
        spoken := spoken + [greeting];
        greeted := true;
        lastGreet := now;
      }
    }

    /** The body of `main`'s loop for one frame read at clock time `now`.
        A frame without a face changes nothing; a face whose landmarks make
        `detect_emotion` raise changes nothing and reports the fault (which
        ends `main`); any other face is observed as above. */
    method Step(frame: Frame, now: real, dist: Metric) returns (fault: Option<Fault>)
      requires Valid() && IsMetric(dist)
      modifies this, smoother
      ensures Valid()
      ensures !frame.Face? ==> fault.None? && unchanged(this, smoother)
      ensures frame.Face? && DetectEmotion(frame.points, dist).Err? ==>
                fault == Some(DetectEmotion(frame.points, dist).error) && unchanged(this, smoother)
      ensures frame.Face? && DetectEmotion(frame.points, dist).Ok? ==>
                && fault.None?
                && smoother.buffer == DequeAppend(old(smoother.buffer), DetectEmotion(frame.points, dist).value, EmotionWindow)
                && var stable := MostCommon(smoother.buffer).value;
                   if !old(greeted) && now - old(lastGreet) > GreetingCooldown
                   then greeted && lastGreet == now && spoken == old(spoken) + [GreetingFromEmotion(stable.Name())]
                   else greeted == old(greeted) && lastGreet == old(lastGreet) && spoken == old(spoken)
    {
      fault := None;
      if frame.Face? {
        var detected := DetectEmotion(frame.points, dist);
        if detected.Err? {
          fault := Some(detected.error);
        } else {
          var _ := Observe(detected.value, now);
        }
      }
    }

    /** `main`'s loop over the frames the camera delivers, `clock[i]` being the
        time at frame `i`. It stops at the first unread frame or at the first
        fault. Whatever the frames, at most one greeting is ever spoken (the
        class invariant `Valid()` bounds `spoken`, restated here for readers
        of the contract), and none at all when one had been spoken before. */
    method Run(frames: seq<Frame>, clock: seq<real>, dist: Metric) returns (fault: Option<Fault>)
      requires Valid() && IsMetric(dist) && |clock| == |frames|
      modifies this, smoother
      ensures Valid()
      ensures old(greeted) ==> spoken == old(spoken) && greeted
      ensures |spoken| <= 1
    {
      fault := None;
      var i := 0;
      while i < |frames| && !frames[i].Unread?
        invariant 0 <= i <= |frames|
        invariant Valid()
        invariant old(greeted) ==> spoken == old(spoken) && greeted
      {
        var f := Step(frames[i], clock[i], dist);
        if f.Some? {
          fault := f;
          break;
        }
        i := i + 1;
      }
    }
  }
}
