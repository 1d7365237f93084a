# Decision pipeline of a single-shot face-recognition security checkpoint

The system takes one photograph, compares every detected face against a gallery
of known people loaded from a directory of reference images, and labels each
face with a known name or as `"Imposter"`. If any face in the frame is
recognised, the first recognised name becomes the *anchor*, and every
unrecognised face is relabelled `"<anchor>'s friend"`. Each face gets a box
colour: red for `"Imposter"`, otherwise blue for a male face, otherwise pink.
Every face still named `"Imposter"` sounds the buzzer for two seconds and sends
an alert e-mail carrying the captured frame.

This project models that pipeline in Dafny, one module per stage:

- `common.dfy` (`Common`): the `Option` type, the `"Imposter"` and
  `"'s friend"` strings, the gender labels, the detected-face record, and
  Python's truthiness test on `recognized_person`.
- `gallery.dfy` (`Gallery`): the loop over the directory listing that builds
  the two parallel lists `known_face_encodings` and `known_face_names`. It also
  models `os.path.splitext` exactly for a name without directory separators, which gives each known person's name.
- `matcher.dfy` (`Matcher`): `np.argmin` with its first-index tie-break, the
  strict `< 0.5` threshold, and the match loop that fills `face_names` and sets
  `recognized_person` once.
- `relabel.dfy` (`Relabel`): the relabel loop, which rewrites an array in place.
- `alerts.dfy` (`Alerts`): the colour decision and the alert log produced by the
  annotation loop.
- `session.dfy` (`Session`): the whole run, from the pre-capture buzz to GPIO
  cleanup, with the main result: the alert count is zero when any face matched,
  and one per face when none did.

Foreign code appears only as inputs:

- Face encodings have an arbitrary type `E`.
- `face_recognition.face_distance` is a total function parameter `dist`.
- What `face_encodings` returns for each directory entry is part of the entry.
- The gender the classifier reports for each face is part of the detected face.
- The buzzer, the e-mail and `GPIO.cleanup` are entries appended to an abstract
  event log.

Names are compared as exact strings, as in the source. So a known person whose
reference file is `Imposter.jpg` is matched as `"Imposter"`. That person is then
relabelled `"Imposter's friend"` like a stranger, but never alerts, because any
match sets the anchor (lemma `Session.ImposterNamedPersonNeverAlerts`).

Three details of the code that the model keeps:

- The code keeps every image with at least one detected face and takes the first
  encoding. It does not require exactly one face.
- The code separates known faces from strangers only by the string
  `"Imposter"`. It keeps no separate intrusion flag.
- The relabel test is Python truthiness, not `is not None`. Lemma
  `Matcher.AnchorTruthy` shows the two agree for a loaded gallery, because
  `Gallery.StemOfImageFile` proves every loaded name is non-empty.

## Model

| member | source | states |
|---|---|---|
| `Gallery.LastDot` | source-code.py:56 | the index of the last `.` in a filename, with no `.` after it; `None` when the name has no `.` |
| `Gallery.StemOfImageFile` | source-code.py:56 | `splitext(f)[0]` for a `.jpg`/`.png` name is never empty: it is the name less its four-character extension, or the whole name when only dots precede the extension |
| `Gallery.ContributingIndices` | source-code.py:49-54 | the listing positions that contribute; each is in range, names a `.jpg`/`.png` file, and has a non-empty encoding list |
| `Gallery.ContributingIndicesExact` | source-code.py:49-54 | contributing positions are strictly increasing (listing order, no repeats); a position is among them if and only if its entry is an image file with at least one encoding |
| `Gallery.LoadedGallery` | source-code.py:45-56 | the gallery the loop builds has equally long encoding and name lists |
| `Gallery.LoadGallery` | source-code.py:45-56 | the loop appends, for each contributing entry in listing order, its first encoding and its filename stem; the two lists stay equal in length and index-aligned |
| `Gallery.LoadedNamesNonEmpty` | source-code.py:56 | every name in a loaded gallery is a non-empty string |
| `Matcher.Distances` | source-code.py:117 | the distance list holds one distance per gallery entry |
| `Matcher.ArgMin` | source-code.py:120 | the chosen index holds the minimum, and every earlier index is strictly larger (the first index wins ties) |
| `Matcher.BestMatch` | source-code.py:116-122 | a face is matched if and only if some gallery distance is strictly below 0.5, so an empty gallery or a minimum of exactly 0.5 gives no match; the matched entry is the first one at the minimum distance |
| `Matcher.AnchorNoneIff` | source-code.py:108-124 | `recognized_person` stays `None` if and only if no face matched |
| `Matcher.AnchorIsFirstMatch` | source-code.py:123-124 | `recognized_person` is the name of the first face, in detection order, that matched; later matches never overwrite it |
| `Matcher.NoAnchorAllImposters` | source-code.py:116-126 | with no anchor, every entry of `face_names` is `"Imposter"` |
| `Matcher.AnchorTruthy` | source-code.py:132 | an anchor taken from a gallery of non-empty names passes the truthiness test |
| `Matcher.MatchFaces` | source-code.py:108-126 | the loop records exactly one name per face, in detection order: the gallery name of the face's best match, or `"Imposter"`; it returns the first matched name as the anchor |
| `Relabel.RelabeledAt` | source-code.py:129-135 | the relabel pass keeps the list length; it changes only `"Imposter"` entries, which become `"<anchor>'s friend"` when the anchor is truthy and stay `"Imposter"` otherwise |
| `Relabel.NoAnchorUnchanged` | source-code.py:132-135 | without a truthy anchor the pass leaves the list as it was |
| `Relabel.RelabelIdempotent` | source-code.py:129-135 | running the pass a second time changes nothing, because a friend label is never `"Imposter"` |
| `Relabel.TruthyAnchorClearsImposters` | source-code.py:129-133 | with a truthy anchor no entry reads `"Imposter"` after the pass |
| `Relabel.AllImpostersCounted` | source-code.py:171-173 | a list that is `"Imposter"` everywhere has as many imposter entries as faces |
| `Relabel.RelabelInPlace` | source-code.py:129-135 | the in-place loop leaves the array equal to the relabelled old contents |
| `Alerts.BoxColour` | source-code.py:155-161 | red exactly for `"Imposter"` whatever the gender; otherwise blue exactly for `"Male"`, and pink otherwise; the decision is total |
| `Alerts.AlertEventsCount` | source-code.py:171-173 | the alert log is exactly one two-second buzz plus one e-mail per `"Imposter"` entry, and nothing else |
| `Alerts.AlertEventsPrefix` | source-code.py:138-173 | alerts come in detection order: the log after the first `i` faces is a prefix of the full log |
| `Alerts.AnnotateAndAlert` | source-code.py:138-173 | the loop over `zip` covers the shorter of the two lists; it gives each face the colour of its name and gender, and its log is the per-face alerts in order |
| `Session.ImposterCountOfRun` | source-code.py:108-135 | after relabelling there is one name per face; no name is `"Imposter"` when any face matched, and every face's name is `"Imposter"` when none did |
| `Session.RunSession` | source-code.py:85-182 | a run yields one final name and one colour per face; its log is the one-second pre-capture buzz, then one buzz and one e-mail per face if no face matched and none otherwise, then GPIO cleanup |
| `Session.KnownFaceWithStranger` | source-code.py:108-135 | with gallery `alice`, a face at 0.1 and a face at 0.9 become `alice` and `alice's friend`, and no alert is raised |
| `Session.ImposterNamedPersonNeverAlerts` | source-code.py:45-135 | a gallery holding only `Imposter.jpg`, with one face at distance 0: the face is matched as `"Imposter"`, relabelled `"Imposter's friend"`, and no entry is left that would alert |
| `Session.EmptyGalleryAlerts` | source-code.py:116-135 | with an empty gallery the single face stays `"Imposter"` and raises exactly one alert cycle |

## Left out

- Camera capture, `cv2.imread` and the colour conversion, and the camera warm-up sleep (source-code.py:89-100): device I/O.
- Face detection, encoding and the Euclidean distance (`face_locations`, `face_encodings`, `face_distance`): foreign code. Encodings are an abstract type, and the distance is a function parameter on exact reals. Floating-point rounding and NaN distances are not modelled.
- Age and gender inference, blob construction and argmax over the network outputs (source-code.py:32-38, 140-153): foreign models and floating point. The gender label is an input, and the age label, which only appears in the drawn text, is not modelled.
- Drawing boxes and text, and showing the frame (source-code.py:164-168, 176-179): rendering. The model keeps the colour chosen for each box.
- The SMTP session in `send_email` (source-code.py:66-81) and the GPIO pin writes and sleeps in `beep_buzzer` (source-code.py:60-64): network and hardware. Each appears only as a log entry. A failed send raises an exception that ends the run before the remaining faces and before `GPIO.cleanup`. The model assumes every send succeeds.
- The hard-coded model paths, credentials and buzzer pin (source-code.py:16-29): configuration.
- A missing or unreadable gallery directory, or an unreadable image file, raises an exception in the source. The model starts from the directory listing and the encoder's output for each entry.
