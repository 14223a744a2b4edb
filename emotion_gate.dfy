/**
 * The emotion gate of emotion_detectionn.py: the face analyser's dominant
 * emotion collapsed to "happy" or "sad", and the pause rule that stops a
 * running slideshow on a sad face.
 */
module EmotionGate {
  import opened Wrappers
  import opened SlideControl

  const Happy: string := "happy"
  const Sad: string := "sad"

  /** Analyser labels that read as a content presenter. */
  const PositiveLabels: set<string> := {"happy", "surprise", "neutral"}
  /** Analyser labels that pause the slideshow. */
  const NegativeLabels: set<string> := {"sad", "angry", "fear"}

  /** ASCII lower-casing of one character. */
  function LowerChar(c: char): (l: char)
    ensures !('A' <= l <= 'Z')
    ensures !('A' <= c <= 'Z') ==> l == c
  {
    if 'A' <= c <= 'Z' then (c as int + ('a' as int - 'A' as int)) as char else c
  }

  function Lower(s: string): (r: string)
    ensures |r| == |s|
    ensures forall i :: 0 <= i < |s| ==> r[i] == LowerChar(s[i])
  {
    seq(|s|, i requires 0 <= i < |s| => LowerChar(s[i]))
  }

  /**
   * The collapsed emotion. `analysis` is the analyser's dominant label, or
   * None when the analysis raised; every failure reads as happy.
   */
  function DetectEmotion(analysis: Option<string>): (e: string)
    ensures e == Happy || e == Sad
  {
    match analysis
    case None => Happy
    case Some(name) =>
      var dominant := Lower(name);
      if dominant in PositiveLabels then Happy
      else if dominant in NegativeLabels then Sad
      else Happy
  }

  /** Sad exactly for a successful analysis whose lower-cased label is sad, angry or fear. */
  lemma SadIffNegativeLabel(analysis: Option<string>)
    ensures DetectEmotion(analysis) == Sad <==>
      analysis.Some? && Lower(analysis.value) in NegativeLabels
  {
    assert PositiveLabels !! NegativeLabels;
  }

  /** Failed analyses and labels outside both lists read as happy. */
  lemma FailureAndUnknownAreHappy(analysis: Option<string>)
    requires analysis.None? || Lower(analysis.value) !in NegativeLabels
    ensures DetectEmotion(analysis) == Happy
  {
  }

  /** The label comparison ignores ASCII case. */
  lemma DetectIgnoresCase()
    ensures DetectEmotion(Some("Angry")) == Sad
    ensures DetectEmotion(Some("FEAR")) == Sad
    ensures DetectEmotion(Some("Disgust")) == Happy
  {
    assert Lower("Angry") == "angry";
    assert Lower("FEAR") == "fear";
    assert Lower("Disgust") == "disgust";
  }

  /** Lower-casing twice is lower-casing once. */
  lemma LowerIdempotent(s: string)
    ensures Lower(Lower(s)) == Lower(s)
  {
    var once := Lower(s);
    assert forall i :: 0 <= i < |s| ==> Lower(once)[i] == LowerChar(LowerChar(s[i])) == once[i];
  }

  /** Labels that differ only in ASCII case collapse to the same emotion. */
  lemma CaseInsensitive(s: string, t: string)
    requires Lower(s) == Lower(t)
    ensures DetectEmotion(Some(s)) == DetectEmotion(Some(t))
  {
  }

  /** A label and its lower-cased form collapse to the same emotion. */
  lemma LowerCasedLabelAgrees(s: string)
    ensures DetectEmotion(Some(Lower(s))) == DetectEmotion(Some(s))
  {
    LowerIdempotent(s);
    CaseInsensitive(Lower(s), s);
  }

  datatype Pause = Pause(active: bool, command: Option<Command>)

  /**
   * The pause rule: a sad emotion stops a running slideshow and closes its
   * window. It leaves the slide number alone and never resumes anything.
   */
  function HandleEmotionPause(emotion: string, active: bool): (p: Pause)
    ensures p.active ==> active
    ensures emotion == Sad ==> !p.active
    ensures emotion != Sad ==> p == Pause(active, None)
    ensures p.command.Some? <==> active && !p.active
    ensures p.command.Some? ==> p.command.value == Clear
  {
    if emotion == Sad && active then Pause(false, Some(Clear))
    else Pause(active, None)
  }

  /** Pausing twice is pausing once. */
  lemma PauseIdempotent(emotion: string, active: bool)
    ensures var once := HandleEmotionPause(emotion, active).active;
      HandleEmotionPause(emotion, once).active == once
  {
  }
}
