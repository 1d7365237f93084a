/**
 * The identity gallery: the loop over the known-faces directory listing that keeps
 * image files with at least one face encoding, appending the first encoding and the
 * file's stem to two parallel lists.
 */
module Gallery {
  import opened Common

  /** One directory entry, paired with what the face encoder returns for it. */
  datatype DirEntry<E> = DirEntry(filename: string, encodings: seq<E>)

  /** The known faces as two index-aligned lists, in loading order. */
  datatype Gallery<E> = Gallery(encodings: seq<E>, names: seq<string>)
  {
    predicate Aligned()
    {
      |encodings| == |names|
    }
  }

  predicate EndsWith(s: string, suffix: string)
  {
    |suffix| <= |s| && s[|s| - |suffix|..] == suffix
  }

  /** `filename.endswith(".jpg") or filename.endswith(".png")` */
  predicate IsImageFile(filename: string)
  {
    EndsWith(filename, ".jpg") || EndsWith(filename, ".png")
  }

  /** An entry contributes to the gallery: an image file whose encoding list is non-empty. */
  predicate Contributes<E>(entry: DirEntry<E>)
  {
    IsImageFile(entry.filename) && |entry.encodings| > 0
  }

  /** The index of the last '.' in `s`, if any. */
  function LastDot(s: string): (r: Option<nat>)
    ensures r.Some? ==> r.value < |s| && s[r.value] == '.'
    ensures r.Some? ==> forall j :: r.value < j < |s| ==> s[j] != '.'
    ensures r.None? ==> forall j :: 0 <= j < |s| ==> s[j] != '.'
  {
    if s == [] then None
    else if s[|s| - 1] == '.' then Some(|s| - 1)
    else LastDot(s[..|s| - 1])
  }

  predicate AllDots(s: string)
  {
    forall j :: 0 <= j < |s| ==> s[j] == '.'
  }

  /**
   * `os.path.splitext(filename)[0]` for a name without directory separators: the text
   * before the last dot, except that a name whose only dots lead it has no extension.
   */
  function Stem(filename: string): string
  {
    match LastDot(filename)
    case None => filename
    case Some(d) => if AllDots(filename[..d]) then filename else filename[..d]
  }

  /** An image file's stem is its name less the four-character extension, and never empty. */
  lemma StemOfImageFile(filename: string)
    requires IsImageFile(filename)
    ensures Stem(filename) != ""
    ensures !AllDots(filename[..|filename| - 4]) ==> Stem(filename) + filename[|filename| - 4..] == filename
    ensures AllDots(filename[..|filename| - 4]) ==> Stem(filename) == filename
  {
    var n := |filename|;
    assert filename[n - 4] == '.' && filename[n - 3] != '.' && filename[n - 2] != '.' && filename[n - 1] != '.' by {
      if EndsWith(filename, ".jpg") {
        assert filename[n - 4..] == ".jpg";
      } else {
        assert filename[n - 4..] == ".png";
      }
    }
    var d := LastDot(filename);
    assert d == Some(n - 4);
    if !AllDots(filename[..n - 4]) {
      assert filename[..n - 4] + filename[n - 4..] == filename;
    }
  }

  /**
   * The positions, in listing order, of the entries that contribute to the gallery.
   * Defined over growing prefixes, as the loading loop visits them.
   */
  function ContributingIndices<E>(entries: seq<DirEntry<E>>): (r: seq<nat>)
    ensures forall k :: 0 <= k < |r| ==> r[k] < |entries| && Contributes(entries[r[k]])
  {
    if entries == [] then []
    else
      var n := |entries| - 1;
      ContributingIndices(entries[..n]) + (if Contributes(entries[n]) then [n] else [])
  }

  /** Exactly the contributing entries are kept, each once, in listing order. */
  lemma {:induction false} ContributingIndicesExact<E>(entries: seq<DirEntry<E>>)
    ensures forall k, l :: 0 <= k < l < |ContributingIndices(entries)| ==>
      ContributingIndices(entries)[k] < ContributingIndices(entries)[l]
    ensures forall j :: 0 <= j < |entries| ==> (Contributes(entries[j]) <==> j in ContributingIndices(entries))
  {
    if entries != [] {
      var n := |entries| - 1;
      var prefix := entries[..n];
      ContributingIndicesExact(prefix);
      forall j | 0 <= j < n
        ensures entries[j] == prefix[j]
      {
      }
    }
  }

  /** The gallery the loading loop builds from `entries`. */
  function LoadedGallery<E>(entries: seq<DirEntry<E>>): (g: Gallery<E>)
    ensures g.Aligned()
  {
    var kept := ContributingIndices(entries);
    Gallery(seq(|kept|, k requires 0 <= k < |kept| => entries[kept[k]].encodings[0]),
            seq(|kept|, k requires 0 <= k < |kept| => Stem(entries[kept[k]].filename)))
  }

  /**
   * The gallery-loading loop. Each contributing entry appends its first encoding and the
   * stem of its filename; the two lists stay index-aligned.
   */
  method LoadGallery<E>(entries: seq<DirEntry<E>>) returns (knownEncodings: seq<E>, knownNames: seq<string>)
    ensures |knownEncodings| == |knownNames| == |ContributingIndices(entries)|
    ensures forall k :: 0 <= k < |knownNames| ==>
      knownEncodings[k] == entries[ContributingIndices(entries)[k]].encodings[0] &&
      knownNames[k] == Stem(entries[ContributingIndices(entries)[k]].filename)
  {
    knownEncodings, knownNames := [], [];
    for i := 0 to |entries|
      invariant |knownEncodings| == |knownNames| == |ContributingIndices(entries[..i])|
      invariant forall k :: 0 <= k < |knownNames| ==>
        knownEncodings[k] == entries[ContributingIndices(entries[..i])[k]].encodings[0] &&
        knownNames[k] == Stem(entries[ContributingIndices(entries[..i])[k]].filename)
    {
      assert entries[..i + 1][..i] == entries[..i];
      var entry := entries[i];
      if IsImageFile(entry.filename) {
        var encoding := entry.encodings;
        if |encoding| > 0 {
          knownEncodings := knownEncodings + [encoding[0]];
          knownNames := knownNames + [Stem(entry.filename)];
        }
      }
    }
    assert entries[..|entries|] == entries;
  }

  /** Every name a loaded gallery holds is non-empty. */
  lemma LoadedNamesNonEmpty<E>(entries: seq<DirEntry<E>>)
    ensures forall k :: 0 <= k < |LoadedGallery(entries).names| ==> LoadedGallery(entries).names[k] != ""
  {
    var kept := ContributingIndices(entries);
    forall k | 0 <= k < |kept|
      ensures Stem(entries[kept[k]].filename) != ""
    {
      StemOfImageFile(entries[kept[k]].filename);
    }
  }
}
