/** Values shared by every stage of the checkpoint's decision pipeline. */
module Common {

  datatype Option<T> = None | Some(value: T)

  /** The two labels of the gender classifier, in `gender_labels` order. */
  datatype Gender = Male | Female

  /**
   * One face as the detector and the attribute classifier report it: its encoding and
   * the gender inferred for its region.
   */
  datatype DetectedFace<E> = DetectedFace(encoding: E, gender: Gender)

  /** The label every detected face starts with, and the one that raises an alert. */
  const Imposter: string := "Imposter"

  /** The suffix appended to the anchor's name when an unknown face is relabelled. */
  const FriendSuffix: string := "'s friend"

  /** Python truthiness of `recognized_person`: not None and not the empty string. */
  predicate Truthy(person: Option<string>)
  {
    person.Some? && person.value != ""
  }
}
