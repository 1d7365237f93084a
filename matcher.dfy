/**
 * Per-face matching against the gallery, and the anchor: the name of the first face,
 * in detection order, that matched a known identity.
 */
module Matcher {
  import opened Common
  import opened Gallery

  /** A face matches only when its closest gallery entry is strictly closer than this. */
  const Threshold: real := 0.5

  /** `face_distance(known_face_encodings, face_encoding)`: one distance per gallery entry. */
  function Distances<E>(known: seq<E>, encoding: E, dist: (E, E) -> real): (d: seq<real>)
    ensures |d| == |known|
  {
    seq(|known|, j requires 0 <= j < |known| => dist(known[j], encoding))
  }

  /** `np.argmin`: the first index holding the minimum. */
  function ArgMin(d: seq<real>): (i: nat)
    requires |d| > 0
    ensures i < |d|
    ensures forall j :: 0 <= j < |d| ==> d[i] <= d[j]
    ensures forall j :: 0 <= j < i ==> d[i] < d[j]
  {
    if |d| == 1 then 0
    else
      var k := ArgMin(d[..|d| - 1]);
      if d[|d| - 1] < d[k] then |d| - 1 else k
  }

  /**
   * The gallery index a face is matched to, if any: the first closest entry, accepted only
   * when its distance is strictly below the threshold.
   */
  function BestMatch(d: seq<real>): (m: Option<nat>)
    ensures m.Some? <==> exists j :: 0 <= j < |d| && d[j] < Threshold
    ensures m.Some? ==> m.value < |d| && d[m.value] < Threshold
    ensures m.Some? ==> forall j :: 0 <= j < |d| ==> d[m.value] <= d[j]
    ensures m.Some? ==> forall j :: 0 <= j < m.value ==> d[m.value] < d[j]
  {
    if |d| == 0 then None
    else
      var i := ArgMin(d);
      if d[i] < Threshold then Some(i) else None
  }

  predicate Matched<E>(g: Gallery<E>, encoding: E, dist: (E, E) -> real)
  {
    BestMatch(Distances(g.encodings, encoding, dist)).Some?
  }

  /** The name the match loop records for one face. */
  function FaceName<E>(g: Gallery<E>, encoding: E, dist: (E, E) -> real): string
    requires g.Aligned()
  {
    match BestMatch(Distances(g.encodings, encoding, dist))
    case None => Imposter
    case Some(i) => g.names[i]
  }

  /** The names recorded for all faces, one per face, in detection order. */
  function FaceNames<E>(g: Gallery<E>, faces: seq<DetectedFace<E>>, dist: (E, E) -> real): (r: seq<string>)
    requires g.Aligned()
  {
    seq(|faces|, i requires 0 <= i < |faces| => FaceName(g, faces[i].encoding, dist))
  }

  /** `recognized_person` after the match loop has seen `faces`. */
  function Anchor<E>(g: Gallery<E>, faces: seq<DetectedFace<E>>, dist: (E, E) -> real): Option<string>
    requires g.Aligned()
  {
    if faces == [] then None
    else
      var earlier := Anchor(g, faces[..|faces| - 1], dist);
      if earlier.Some? then earlier
      else if Matched(g, faces[|faces| - 1].encoding, dist) then Some(FaceName(g, faces[|faces| - 1].encoding, dist))
      else None
  }

  /** The anchor is absent exactly when no face matched. */
  lemma {:induction false} AnchorNoneIff<E>(g: Gallery<E>, faces: seq<DetectedFace<E>>, dist: (E, E) -> real)
    requires g.Aligned()
    ensures Anchor(g, faces, dist).None? <==> forall i :: 0 <= i < |faces| ==> !Matched(g, faces[i].encoding, dist)
  {
    if faces != [] {
      var n := |faces| - 1;
      AnchorNoneIff(g, faces[..n], dist);
      assert forall i :: 0 <= i < n ==> faces[..n][i] == faces[i];
    }
  }

  /** The anchor is the name of the first matching face; later matches never replace it. */
  lemma {:induction false} AnchorIsFirstMatch<E>(g: Gallery<E>, faces: seq<DetectedFace<E>>, dist: (E, E) -> real, i: nat)
    requires g.Aligned()
    requires i < |faces| && Matched(g, faces[i].encoding, dist)
    requires forall j :: 0 <= j < i ==> !Matched(g, faces[j].encoding, dist)
    ensures Anchor(g, faces, dist) == Some(FaceName(g, faces[i].encoding, dist))
  {
    var n := |faces| - 1;
    assert forall j :: 0 <= j < n ==> faces[..n][j] == faces[j];
    if i < n {
      AnchorIsFirstMatch(g, faces[..n], dist, i);
    } else {
      AnchorNoneIff(g, faces[..n], dist);
    }
  }

  /** Without an anchor every face was recorded as an imposter. */
  lemma NoAnchorAllImposters<E>(g: Gallery<E>, faces: seq<DetectedFace<E>>, dist: (E, E) -> real)
    requires g.Aligned()
    requires Anchor(g, faces, dist).None?
    ensures forall i :: 0 <= i < |faces| ==> FaceNames(g, faces, dist)[i] == Imposter
  {
    AnchorNoneIff(g, faces, dist);
  }

  /** An anchor drawn from a gallery of non-empty names is truthy. */
  lemma {:induction false} AnchorTruthy<E>(g: Gallery<E>, faces: seq<DetectedFace<E>>, dist: (E, E) -> real)
    requires g.Aligned()
    requires forall k :: 0 <= k < |g.names| ==> g.names[k] != ""
    ensures Anchor(g, faces, dist).Some? ==> Truthy(Anchor(g, faces, dist))
  {
    if faces != [] {
      AnchorTruthy(g, faces[..|faces| - 1], dist);
    }
  }

  /**
   * The match loop: one name per face in detection order, "Imposter" unless the closest
   * gallery entry is under the threshold, and the first matched name kept as the anchor.
   */
  method MatchFaces<E>(g: Gallery<E>, faces: seq<DetectedFace<E>>, dist: (E, E) -> real)
    returns (faceNames: seq<string>, recognizedPerson: Option<string>)
    requires g.Aligned()
    ensures faceNames == FaceNames(g, faces, dist)
    ensures recognizedPerson == Anchor(g, faces, dist)
  {
    faceNames, recognizedPerson := [], None;
    for i := 0 to |faces|
      invariant |faceNames| == i
      invariant forall k :: 0 <= k < i ==> faceNames[k] == FaceName(g, faces[k].encoding, dist)
      invariant recognizedPerson == Anchor(g, faces[..i], dist)
    {
      assert faces[..i + 1][..i] == faces[..i];
      var name := Imposter;
      var faceDistances := Distances(g.encodings, faces[i].encoding, dist);
      if |faceDistances| > 0 {
        var bestMatchIndex := ArgMin(faceDistances);
        if faceDistances[bestMatchIndex] < Threshold {
          name := g.names[bestMatchIndex];
          if recognizedPerson.None? {
            recognizedPerson := Some(name);
          }
        }
      }
      faceNames := faceNames + [name];
    }
    assert faces[..|faces|] == faces;
  }
}
