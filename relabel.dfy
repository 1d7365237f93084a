/** The relabel pass: unknown faces become friends of the anchor, when there is one. */
module Relabel {
  import opened Common

  /** What the pass makes of one entry of `face_names`. */
  function RelabelOne(name: string, recognizedPerson: Option<string>): string
  {
    if name == Imposter then
      if Truthy(recognizedPerson) then recognizedPerson.value + FriendSuffix else Imposter
    else name
  }

  /** The whole list after the pass. */
  function Relabeled(names: seq<string>, recognizedPerson: Option<string>): seq<string>
  {
    seq(|names|, i requires 0 <= i < |names| => RelabelOne(names[i], recognizedPerson))
  }

  /** How many entries still read "Imposter". */
  function CountImposters(names: seq<string>): nat
  {
    if names == [] then 0
    else CountImposters(names[..|names| - 1]) + (if names[|names| - 1] == Imposter then 1 else 0)
  }

  /**
   * Only "Imposter" entries change: each becomes "<anchor>'s friend" when the anchor is
   * truthy and stays "Imposter" otherwise; the length and every other entry are unchanged.
   */
  lemma RelabeledAt(names: seq<string>, recognizedPerson: Option<string>, i: nat)
    requires i < |names|
    ensures |Relabeled(names, recognizedPerson)| == |names|
    ensures names[i] != Imposter ==> Relabeled(names, recognizedPerson)[i] == names[i]
    ensures names[i] == Imposter && Truthy(recognizedPerson) ==>
      Relabeled(names, recognizedPerson)[i] == recognizedPerson.value + FriendSuffix
    ensures names[i] == Imposter && !Truthy(recognizedPerson) ==> Relabeled(names, recognizedPerson)[i] == Imposter
  {
  }

  /** Without a truthy anchor the pass changes nothing. */
  lemma NoAnchorUnchanged(names: seq<string>, recognizedPerson: Option<string>)
    requires !Truthy(recognizedPerson)
    ensures Relabeled(names, recognizedPerson) == names
  {
  }

  /** A friend label is never "Imposter", so applying the pass twice is the same as once. */
  lemma RelabelIdempotent(names: seq<string>, recognizedPerson: Option<string>)
    ensures Relabeled(Relabeled(names, recognizedPerson), recognizedPerson) == Relabeled(names, recognizedPerson)
  {
    if Truthy(recognizedPerson) {
      forall i | 0 <= i < |names|
        ensures Relabeled(names, recognizedPerson)[i] != Imposter || names[i] != Imposter
      {
        if names[i] == Imposter {
          assert |recognizedPerson.value + FriendSuffix| > |Imposter|;
        }
      }
    }
  }

  /** With a truthy anchor no entry reads "Imposter" after the pass. */
  lemma {:induction false} TruthyAnchorClearsImposters(names: seq<string>, recognizedPerson: Option<string>)
    requires Truthy(recognizedPerson)
    ensures CountImposters(Relabeled(names, recognizedPerson)) == 0
  {
    if names != [] {
      var n := |names| - 1;
      TruthyAnchorClearsImposters(names[..n], recognizedPerson);
      assert Relabeled(names, recognizedPerson)[..n] == Relabeled(names[..n], recognizedPerson);
      assert |recognizedPerson.value + FriendSuffix| > |Imposter|;
    }
  }

  /** A list that reads "Imposter" everywhere counts every entry. */
  lemma {:induction false} AllImpostersCounted(names: seq<string>)
    requires forall i :: 0 <= i < |names| ==> names[i] == Imposter
    ensures CountImposters(names) == |names|
  {
    if names != [] {
      AllImpostersCounted(names[..|names| - 1]);
    }
  }

  /** The relabel loop, rewriting `face_names` in place. */
  method RelabelInPlace(faceNames: array<string>, recognizedPerson: Option<string>)
    modifies faceNames
    ensures faceNames[..] == Relabeled(old(faceNames[..]), recognizedPerson)
  {
    for i := 0 to faceNames.Length
      invariant forall k :: 0 <= k < i ==> faceNames[k] == RelabelOne(old(faceNames[k]), recognizedPerson)
      invariant forall k :: i <= k < faceNames.Length ==> faceNames[k] == old(faceNames[k])
    {
      if faceNames[i] == Imposter {
        if Truthy(recognizedPerson) {
          faceNames[i] := recognizedPerson.value + FriendSuffix;
        } else {
          faceNames[i] := Imposter;
        }
      }
    }
  }
}
