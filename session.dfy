/**
 * One run of the checkpoint: load the gallery, buzz before capture, match the detected
 * faces, relabel, annotate and alert, release the GPIO pins.
 */
module Session {
  import opened Common
  import opened Gallery
  import opened Matcher
  import opened Relabel
  import opened Alerts

  /** The names drawn on the frame at the end of a run. */
  function FinalNames<E>(entries: seq<DirEntry<E>>, faces: seq<DetectedFace<E>>, dist: (E, E) -> real): seq<string>
  {
    var g := LoadedGallery(entries);
    Relabeled(FaceNames(g, faces, dist), Anchor(g, faces, dist))
  }

  /**
   * One matched face suppresses every alert; with no match every face alerts.
   */
  lemma ImposterCountOfRun<E>(entries: seq<DirEntry<E>>, faces: seq<DetectedFace<E>>, dist: (E, E) -> real)
    ensures |FinalNames(entries, faces, dist)| == |faces|
    ensures Anchor(LoadedGallery(entries), faces, dist).Some? ==> CountImposters(FinalNames(entries, faces, dist)) == 0
    ensures Anchor(LoadedGallery(entries), faces, dist).None? ==> CountImposters(FinalNames(entries, faces, dist)) == |faces|
  {
    var g := LoadedGallery(entries);
    var anchor := Anchor(g, faces, dist);
    if anchor.Some? {
      LoadedNamesNonEmpty(entries);
      AnchorTruthy(g, faces, dist);
      TruthyAnchorClearsImposters(FaceNames(g, faces, dist), anchor);
    } else {
      NoAnchorAllImposters(g, faces, dist);
      NoAnchorUnchanged(FaceNames(g, faces, dist), anchor);
      AllImpostersCounted(FaceNames(g, faces, dist));
    }
  }

  /**
   * The whole run. Every face gets its final name and colour; the log is the pre-capture
   * buzz, one alert cycle per face when no face matched and none otherwise, then cleanup.
   */
  method RunSession<E>(entries: seq<DirEntry<E>>, faces: seq<DetectedFace<E>>, dist: (E, E) -> real)
    returns (finalNames: seq<string>, colours: seq<Colour>, events: seq<Event>)
    ensures finalNames == FinalNames(entries, faces, dist)
    ensures |colours| == |faces|
    ensures forall i :: 0 <= i < |faces| ==> colours[i] == BoxColour(finalNames[i], faces[i].gender)
    ensures Anchor(LoadedGallery(entries), faces, dist).Some? ==> events == [Buzz(1), Cleanup]
    ensures Anchor(LoadedGallery(entries), faces, dist).None? ==> events == [Buzz(1)] + Repeat(|faces|) + [Cleanup]
  {
    var knownEncodings, knownNames := LoadGallery(entries);
    var g := Gallery(knownEncodings, knownNames);
    assert g == LoadedGallery(entries);

    events := [Buzz(1)];

    var faceNames, recognizedPerson := MatchFaces(g, faces, dist);
    var buffer := new string[|faceNames|](i requires 0 <= i < |faceNames| => faceNames[i]);
    assert buffer[..] == faceNames;
    RelabelInPlace(buffer, recognizedPerson);
    finalNames := buffer[..];

    var alerts;
    colours, alerts := AnnotateAndAlert(faces, finalNames);
    ImposterCountOfRun(entries, faces, dist);
    assert finalNames[..|colours|] == finalNames;
    AlertEventsCount(finalNames);
    events := events + alerts + [Cleanup];
  }

  /** Distances for the worked scenarios: face 1 is close to every known face, others far. */
  function ScenarioDistance(known: int, face: int): real
  {
    if face == 1 then 0.1 else 0.9
  }

  /** A known face at 0.1 and a stranger at 0.9: the stranger becomes a friend, nothing alerts. */
  lemma KnownFaceWithStranger()
    ensures var g := Gallery([0], ["alice"]);
            var faces := [DetectedFace(1, Female), DetectedFace(2, Male)];
            var names := Relabeled(FaceNames(g, faces, ScenarioDistance), Anchor(g, faces, ScenarioDistance));
            names == ["alice", "alice's friend"] && AlertEvents(names) == []
  {
    var g := Gallery([0], ["alice"]);
    var faces := [DetectedFace(1, Female), DetectedFace(2, Male)];
    assert Distances(g.encodings, 1, ScenarioDistance)[0] == 0.1;
    assert Distances(g.encodings, 2, ScenarioDistance)[0] == 0.9;
    assert FaceNames(g, faces, ScenarioDistance) == ["alice", Imposter];
    assert faces[..1] == [faces[0]];
    assert Anchor(g, faces[..1], ScenarioDistance) == Some("alice");
    var names := Relabeled(["alice", Imposter], Some("alice"));
    assert "alice" + FriendSuffix == "alice's friend";
    assert names == ["alice", "alice's friend"];
    assert names[..1] == ["alice"];
  }

  /** An empty gallery: the one face stays "Imposter" and raises exactly one alert. */
  lemma EmptyGalleryAlerts()
    ensures var g := Gallery([], []);
            var faces := [DetectedFace(1, Male)];
            var names := Relabeled(FaceNames(g, faces, ScenarioDistance), Anchor(g, faces, ScenarioDistance));
            names == [Imposter] && AlertEvents(names) == ImposterAlert()
  {
    var g: Gallery<int> := Gallery([], []);
    var faces := [DetectedFace(1, Male)];
    assert Distances(g.encodings, 1, ScenarioDistance) == [];
    assert FaceNames(g, faces, ScenarioDistance) == [Imposter];
    assert faces[..0] == [];
    var names := Relabeled([Imposter], None);
    assert names == [Imposter];
    assert names[..0] == [];
  }

  /**
   * A known person whose reference file is `Imposter.jpg` is matched under the name
   * "Imposter"; the match sets the anchor, so the pass relabels that face too and nothing alerts.
   */
  lemma ImposterNamedPersonNeverAlerts()
    ensures var entries := [DirEntry("Imposter.jpg", [7])];
            var faces := [DetectedFace(7, Male)];
            var dist := (known: int, face: int) => 0.0;
            FinalNames(entries, faces, dist) == ["Imposter's friend"] &&
            CountImposters(FinalNames(entries, faces, dist)) == 0
  {
    var entries := [DirEntry("Imposter.jpg", [7])];
    var faces := [DetectedFace(7, Male)];
    var dist := (known: int, face: int) => 0.0;
    assert entries[..0] == [];
    assert Contributes(entries[0]);
    assert ContributingIndices(entries) == [0];
    StemOfImageFile("Imposter.jpg");
    assert "Imposter.jpg"[..8] == "Imposter";
    assert !AllDots("Imposter.jpg"[..8]) by { assert "Imposter.jpg"[0] == 'I'; }
    assert Stem("Imposter.jpg") == Imposter;
    var g := LoadedGallery(entries);
    assert g.names == [Imposter];
    assert Distances(g.encodings, 7, dist)[0] == 0.0;
    assert FaceNames(g, faces, dist) == [Imposter];
    assert faces[..0] == [];
    assert Anchor(g, faces, dist) == Some(Imposter);
    assert Imposter + FriendSuffix == "Imposter's friend";
    assert FinalNames(entries, faces, dist) == ["Imposter's friend"];
    ImposterCountOfRun(entries, faces, dist);
  }
}
