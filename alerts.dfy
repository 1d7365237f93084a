/**
 * The annotation loop's decisions: the box colour for each face, and the buzzer and
 * e-mail alert each face still named "Imposter" triggers.
 */
module Alerts {
  import opened Common
  import opened Relabel

  /** The label `gender_labels[...]` yields for a classifier outcome. */
  function GenderLabel(gender: Gender): string
  {
    match gender
    case Male => "Male"
    case Female => "Female"
  }

  datatype Colour = Red | Blue | Pink

  /**
   * The box colour: red for "Imposter" whatever the gender, otherwise blue for "Male",
   * otherwise pink.
   */
  function BoxColour(name: string, gender: Gender): (c: Colour)
    ensures c == Red <==> name == Imposter
    ensures c == Blue <==> name != Imposter && GenderLabel(gender) == "Male"
    ensures c == Pink <==> name != Imposter && GenderLabel(gender) != "Male"
  {
    if name == Imposter then Red
    else if GenderLabel(gender) == "Male" then Blue
    else Pink
  }

  /** The path of the captured frame, sent as the e-mail attachment. */
  const CapturedImagePath: string := "captured_image.jpg"

  /** Side effects, as entries of an abstract log. */
  datatype Event =
    | Buzz(seconds: nat)          // buzzer pin high, sleep, pin low
    | Email(attachment: string)   // one alert e-mail carrying the frame
    | Cleanup                     // GPIO released

  /** What one imposter triggers: a two-second buzz, then an e-mail with the frame. */
  function ImposterAlert(): seq<Event>
  {
    [Buzz(2), Email(CapturedImagePath)]
  }

  /** The events the annotation loop emits for `names`, face by face. */
  function AlertEvents(names: seq<string>): seq<Event>
  {
    if names == [] then []
    else AlertEvents(names[..|names| - 1]) + (if names[|names| - 1] == Imposter then ImposterAlert() else [])
  }

  /** `count` alert cycles back to back. */
  function Repeat(count: nat): (r: seq<Event>)
  {
    if count == 0 then [] else Repeat(count - 1) + ImposterAlert()
  }

  /** The alert log is exactly one buzz-and-e-mail cycle per "Imposter" entry. */
  lemma {:induction false} AlertEventsCount(names: seq<string>)
    ensures AlertEvents(names) == Repeat(CountImposters(names))
  {
    if names != [] {
      AlertEventsCount(names[..|names| - 1]);
    }
  }

  /** Alerts are emitted in detection order: the log for a prefix of the faces is a prefix of the log. */
  lemma {:induction false} AlertEventsPrefix(names: seq<string>, i: nat)
    requires i <= |names|
    ensures AlertEvents(names[..i]) <= AlertEvents(names)
  {
    if i < |names| {
      var n := |names| - 1;
      AlertEventsPrefix(names[..n], i);
      assert names[..n][..i] == names[..i];
    } else {
      assert names[..i] == names;
    }
  }

  function Min(a: nat, b: nat): nat
  {
    if a < b then a else b
  }

  /**
   * The annotation loop over `zip(face_locations, face_names)`: one colour per face and,
   * for every face named "Imposter", a buzz and an e-mail, in detection order.
   */
  method AnnotateAndAlert<E>(faces: seq<DetectedFace<E>>, faceNames: seq<string>)
    returns (colours: seq<Colour>, events: seq<Event>)
    ensures |colours| == Min(|faces|, |faceNames|)
    ensures forall i :: 0 <= i < |colours| ==> colours[i] == BoxColour(faceNames[i], faces[i].gender)
    ensures events == AlertEvents(faceNames[..|colours|])
  {
    var n := Min(|faces|, |faceNames|);
    colours, events := [], [];
    for i := 0 to n
      invariant |colours| == i
      invariant forall k :: 0 <= k < i ==> colours[k] == BoxColour(faceNames[k], faces[k].gender)
      invariant events == AlertEvents(faceNames[..i])
    {
      assert faceNames[..i + 1][..i] == faceNames[..i];
      var name := faceNames[i];
      var gender := GenderLabel(faces[i].gender);
      var boxColour;
      if name == Imposter {
        boxColour := Red;
      } else if gender == "Male" {
        boxColour := Blue;
      } else {
        boxColour := Pink;
      }
      colours := colours + [boxColour];
      if name == Imposter {
        events := events + [Buzz(2), Email(CapturedImagePath)];
      }
    }
  }
}
