# Face capture, recognition and login gate — a Dafny model

This project models the deterministic core of a small face-recognition login
demo. The demo has four parts:

- a capture tool saves numbered 200 x 200 face crops per person;
- a trainer labels the collected folders with dense ids and writes the
  id -> name map as `labels.json`;
- a synthetic risk-labelling rule buckets a weighted score into low, medium
  and high;
- the live loop `reconhecimento` logs a person in after 5 seconds of
  continuous recognition with confidence of at least 50.

The camera, the Haar detector, the LBPH recognizer, the random forest and the
clock are replaced by inputs. Each camera frame arrives as its detected boxes,
the key pressed and, in the demo, one record per face. That record holds
whether the crop resized, the recognizer's answer, the risk forest's class and
the time the face was handled.

Files (one module each):

- `common.dfy`: shared values (`Option`, detector boxes, key codes).
- `decimal.dfy`: Python's `str`/`int` on integers, `:03d` and `:.1f` on a
  confidence held in tenths, and `str.replace`.
- `text_order.dfy`: Python's `<` on strings, the order `sorted` uses.
- `dataset.dfy`: `read_images_labels` and `get_face_count`.
- `trainer.dfy`: `train` with the label-map inversion and the labels-file
  round trip.
- `capture.dfy`: the capture loop.
- `risk_rule.dfy`: the score, `numpy.digitize` and the synthetic rows.
- `encoding.dfy`: the bytes of `labels.json` as the trainer writes them
  and the UTF-8 test the reader applies.
- `demo.dfy`: `reconhecimento`, `human_label_from_pred`, the detector
  settings and the loading of the artifacts.

Where the code is a loop that updates variables, it is a Dafny method with a
loop, proved equal to a specification function. Those methods are
`Dataset.ReadImagesLabels`, `Capture.CaptureFaces` and
`Demo.Reconhecimento`. The lemmas prove the promised properties about the
specification functions.

Behaviour worth noting:

- An id the recognizer returns but the labels map does not contain is shown
  as `id N`. That text is not `Desconhecido`, so such a face qualifies for
  login (`Demo.UnknownIdQualifies`).
- The confidence comparison keeps the literal `>= 50`.
- A face that fails the qualification test for any reason other than low
  confidence leaves the timer unchanged. Examples are a prediction that
  raised, no recognizer, a recognizer that read no trained model, or a
  folder literally named `Desconhecido`.
- The timer is one variable shared by every face, and no step compares
  identities. If person A is recognised from t = 0 and person B from t = 3,
  B's face at t = 5 logs in: `Demo.Qualifies` does not look at the id.

## Model

| member | source | states |
|---|---|---|
| Decimal.IntToString | src/main.py:159 | definition: Python's `str` on an integer, a `-` before the digits of a negative one (the `id N` text and the keys `json.dump` writes) |
| Decimal.ParseInt | src/main.py:104 | definition: `int(k)` on a labels-file key, None for text that is not an optional `-` followed by digits |
| Decimal.Pad3 | src/capture_faces.py:46 | definition: the `:03d` spelling of a count, zero-padded to three digits |
| Decimal.FormatTenths | src/main.py:160 | definition: the `:.1f` spelling of a confidence held in tenths |
| Decimal.ParseTenths | src/main.py:169 | definition: `float` on such a spelling, None when it does not parse |
| Decimal.NatToStringValue | src/train_face_recognizer.py:43 | the decimal spelling `str(n)` of a non-negative id denotes n |
| Decimal.NatToString | src/train_face_recognizer.py:43 | `str(n)` is a non-empty digit string with no leading zero except for 0 itself |
| Decimal.ParseIntToString | src/main.py:104 | `int(str(i)) == i` for every integer key |
| Decimal.IntToStringInjective | src/train_face_recognizer.py:41-43 | different ids are written as different JSON keys |
| Decimal.Pad3Value | src/capture_faces.py:46 | `f"{n:03d}"` is all digits and denotes n; below 1000 it is exactly three characters |
| Decimal.ParseFormatTenths | src/main.py:160 | a confidence formatted with `:.1f` and read back with `float` gives the same value (in tenths) |
| Decimal.FormatTenthsHasNoC | src/main.py:160 | the formatted number has no letter `c`, so removing `"conf "` cannot touch it |
| Decimal.RemoveAll | src/main.py:169 | `str.replace(pat, "")` never lengthens the text |
| Decimal.RemoveAllAbsent | src/main.py:169 | text without the first letter of the pattern is returned as it is |
| TextOrder.Less | src/utils.py:18 | definition: Python's `<` on strings, code point by code point, a proper prefix first |
| TextOrder.LessIrreflexive | src/utils.py:18 | no name sorts before itself |
| TextOrder.LessTransitive | src/utils.py:18 | the order of `sorted` on names is transitive |
| TextOrder.LessTotal | src/utils.py:18 | of two different names one sorts first |
| TextOrder.LessAsymmetric | src/utils.py:18 | two names never sort before each other |
| Dataset.SortByName | src/utils.py:18 | definition: `sorted(os.listdir(base_dir))` as an insertion sort by `TextOrder.Less` |
| Dataset.AddEntry | src/utils.py:19-35 | definition: one turn of the outer loop: a non-folder is skipped, a new folder name gets the next id, and each decodable file appends its image and that id |
| Dataset.AddEntries | src/utils.py:18-35 | definition: the outer loop over the sorted listing |
| Dataset.Labelled | src/utils.py:9-36 | definition: `read_images_labels` as the fold of `AddEntry` over the sorted listing from empty lists and map |
| Dataset.FacesOf | src/utils.py:26-33 | definition: the decoded images of the sub-folders, folder after folder |
| Dataset.LabelsOf | src/utils.py:22-33 | definition: each sub-folder's id repeated once per decoded image, folder after folder |
| Dataset.RegularFileCount | src/utils.py:45 | definition: the number of children that are regular files |
| Dataset.FaceCount | src/utils.py:38-45 | definition: `get_face_count`: 0 when the name is no sub-folder, else its regular-file count |
| Dataset.Decoded | src/utils.py:26-35 | the images read from a folder come from its decodable files only; all of them when all decode, none when none do |
| Dataset.SortPermutes | src/utils.py:18 | `sorted` returns a permutation of the listing with the same names |
| Dataset.SortCounts | src/utils.py:18 | sorting keeps the set of sub-folder names, their number and the number of decodable files |
| Dataset.SortAscending | src/utils.py:18 | distinct names come out strictly ascending |
| Dataset.SortKeeps | src/utils.py:18 | `sorted` permutes the listing, keeps its folders and samples, and orders distinct names strictly ascending |
| Dataset.InsertAscending | src/utils.py:18 | inserting a new name keeps the listing ascending |
| Dataset.Repeat | src/utils.py:33 | n copies of the folder's id |
| Dataset.AddEntryKeeps | src/utils.py:18-35 | one turn of the outer loop keeps ids dense, in name order, labels assigned and nondecreasing, lists aligned |
| Dataset.AddEntriesKeeps | src/utils.py:18-35 | the whole outer loop keeps that invariant |
| Dataset.LabelledWell | src/utils.py:9-36 | the result satisfies the reader invariant: dense ids in name order, assigned nondecreasing labels, aligned lists |
| Dataset.LabelledCovers | src/utils.py:9-36 | the result registers exactly the sub-folders and holds one image per decodable file |
| Dataset.AddEntriesExtends | src/utils.py:22-25 | an id, once assigned, is kept by every later turn of the outer loop |
| Dataset.AddEntriesImages | src/utils.py:18-35 | the outer loop appends the decodable images of each sub-folder, folder after folder |
| Dataset.AddEntriesSamples | src/utils.py:18-35 | the outer loop appends, for each sub-folder, its own id once per decodable image |
| Dataset.LabelsFollowFolders | src/utils.py:18-35 | with the sub-folders in sorted order, `faces` is their decodable images folder after folder and `labels` repeats each folder's own id once per image, so every label is the id of the folder its face came from |
| Dataset.IdsDenseInNameOrder | src/utils.py:18-24 | sub-folders receive ids 0..n-1, each once, and id order is sorted-name order (both directions) |
| Dataset.EveryFolderGetsId | src/utils.py:20-24 | the keys of `label_to_id` are exactly the sub-folder names, even those with no decodable file |
| Dataset.SamplesAligned | src/utils.py:32-33 | `faces` and `labels` have equal length, the number of decodable files in sub-folders |
| Dataset.LabelsAreAssignedIds | src/utils.py:25-33 | every label is an assigned id and labels never decrease in traversal order |
| Dataset.NonFolderIgnored | src/utils.py:20-21 | an entry that is not a directory gets no id and adds no sample |
| Dataset.EmptyFolderStillRegistered | src/utils.py:22-35 | a folder whose files all fail to decode gets an id and adds no sample |
| Dataset.ReadFolder | src/utils.py:26-35 | the inner loop appends exactly the folder's decodable images, and its id once per image |
| Dataset.ReadImagesLabels | src/utils.py:9-36 | the nested loops return the three results of the specification, with `faces` and `labels` of equal length |
| Dataset.Find | src/utils.py:42-43 | looking a person up finds an entry of that name exactly when one exists |
| Dataset.FolderNamesFound | src/utils.py:41-43 | a name that is no sub-folder of the listing is either absent or a plain file, so it counts 0 |
| Dataset.DecodedAreRegularFiles | src/utils.py:44-45 | every decodable entry is a regular file, so the file count bounds the images read |
| Dataset.FaceCountBoundsSamples | src/utils.py:38-45 | a person without a folder counts 0; otherwise the count of regular files bounds the images read from it |
| Trainer.Resize | src/train_face_recognizer.py:27 | definition: `cv2.resize(f, (200, 200))` on the image's dimensions |
| Trainer.Train | src/train_face_recognizer.py:20-45 | definition: `train`: NoImages when no image decodes, else the resized samples, their labels, the inverted map and the labels file |
| Trainer.ReadLabelsInto | src/main.py:104 | definition: the dict comprehension `{int(k): v ...}` over the file's members, in order |
| Trainer.ReadLabels | src/main.py:103-104 | definition: reading the labels file; None when a key does not parse, as `int(k)` raising |
| Trainer.ResizeAll | src/train_face_recognizer.py:27 | one resized sample per face, every one 200 x 200 |
| Trainer.ResizeIdempotent | src/train_face_recognizer.py:27 | resizing a 200 x 200 sample leaves its size as it is |
| Trainer.Invert | src/train_face_recognizer.py:41 | for distinct ids the inverse has exactly the ids as keys and sends each id back to its name |
| Trainer.MinKey | src/train_face_recognizer.py:43 | the smallest id of the map, the first member `json.dump` writes |
| Trainer.WriteLabels | src/train_face_recognizer.py:42-43 | the JSON object has one member per id |
| Encoding.Utf8Structured | src/main.py:103 | definition: the structural test UTF-8 decoding applies to the file's bytes |
| Encoding.Cp1252 | src/train_face_recognizer.py:42-43 | the platform-encoded file is defined exactly for text of characters below U+0080 or from U+00A0 to U+00FF, one byte per character holding its code point |
| Encoding.AsciiReadsBack | src/main.py:103 | a labels text made only of ASCII characters, written in cp1252, passes the UTF-8 reader's test |
| Encoding.BrokenAfterAscii | src/main.py:103 | after ASCII bytes, a lead byte not followed by the continuation byte it announces makes the file undecodable |
| Encoding.Cp1252NameDoesNotDecode | src/train_face_recognizer.py:42-43 | the labels file `json.dump` writes for `{0: "João"}` (indented), written in cp1252, is encodable but fails the UTF-8 test |
| Trainer.WrittenMembersFromMap | src/train_face_recognizer.py:43 | every written member is the decimal id and name of an entry of the map |
| Trainer.WrittenKeysDistinct | src/train_face_recognizer.py:43 | no two written members share a key |
| Trainer.ReadWriteInto | src/main.py:104 | reading the written members into a map adds exactly the written map |
| Trainer.LabelsFileRoundTrip | src/train_face_recognizer.py:42-43 | writing the id -> name map and reading it back with `int(k)` gives the same map |
| Trainer.TrainGuard | src/train_face_recognizer.py:22-25 | training stops before creating the recognizer or writing any artifact exactly when no image decodes |
| Trainer.TrainedSamplesMatchLabels | src/train_face_recognizer.py:27-38 | the recognizer gets as many 200 x 200 samples as labels, one per decodable file |
| Trainer.InversionRecoversNames | src/train_face_recognizer.py:41 | `id_to_label[label_to_id[k]] == k` for every folder name |
| Trainer.InversionIsTotal | src/train_face_recognizer.py:29-41 | the inverse has exactly the keys 0..n-1, and every training label has a name |
| Trainer.TrainedLabelsFileRoundTrip | src/train_face_recognizer.py:41-43 | the labels file `train` writes reads back as its id -> name map |
| Capture.FileName | src/capture_faces.py:46 | definition: `f"{count:03d}.png"` |
| Common.Area | src/capture_faces.py:42 | definition: the sort key `w * h` of a detector box |
| Capture.CaptureFrom | src/capture_faces.py:24-52 | definition: the `while True` loop from a session state: stop on a failed read or `q`, save the largest face on SPACE, stop once `count >= num_images` |
| Capture.Capture | src/capture_faces.py:14-55 | definition: `main(person_id, num_images, ...)` from `count = 0` |
| Capture.LargestIndex | src/capture_faces.py:42-43 | the picked box has the largest area, and every earlier box is strictly smaller (stable sort, first of the ties) |
| Capture.LargestIndexUnique | src/capture_faces.py:42-43 | those two properties determine the pick |
| Capture.FileNameInjective | src/capture_faces.py:46 | different counts give different file names |
| Capture.FileNameShape | src/capture_faces.py:46 | below 1000 the name is three digits denoting count, then `.png` |
| Capture.CaptureFaces | src/capture_faces.py:21-52 | the loop computes the capture specification for the given frames |
| Capture.CaptureFromKeepsNumbering | src/capture_faces.py:46-48 | every save writes `{count:03d}.png`, then adds one to count; earlier saves are kept |
| Capture.CaptureNumbersFiles | src/capture_faces.py:21-48 | a session writes 000.png, 001.png and so on, in order, with distinct names, and count equals the number saved |
| Capture.CaptureFromBounded | src/capture_faces.py:48-52 | the loop stops when count reaches num_images, so it never exceeds it (one file when num_images < 1) |
| Capture.CaptureBounded | src/capture_faces.py:50-52 | a whole session saves at most num_images files, one when num_images < 1 |
| Capture.CaptureFromSavesLargest | src/capture_faces.py:37-47 | every saved crop is the largest box of a frame where SPACE was pressed with a face in view |
| Capture.CaptureSavesLargest | src/capture_faces.py:37-47 | the same for a whole session |
| Capture.CaptureFromKeepsPrefix | src/capture_faces.py:47 | within one session the list of written files only grows: earlier writes of the session are kept |
| Capture.CaptureFrameOutcomes | src/capture_faces.py:26-40 | `q` or a failed read ends the loop with nothing more saved; SPACE with no face, or any other key, saves nothing |
| RiskRule.Score | src/train_risk_model.py:29 | definition: the weighted score `0.4*(freq/10) + 0.3*(avg_deposit/200) + 0.15*(session_minutes/120) + 0.1*spikes + 0.2*(loss_streak/10)` |
| RiskRule.Row | src/train_risk_model.py:20-26 | definition: one synthetic row built from its draws, the session length clipped at 1 |
| RiskRule.Digitize | src/train_risk_model.py:31 | `numpy.digitize` on increasing bins: the index i with bins[i-1] <= x < bins[i] |
| RiskRule.DigitizeMonotone | src/train_risk_model.py:31 | a larger score never lands in a lower bin |
| RiskRule.RiskLabel | src/train_risk_model.py:29-31 | the class is 0, 1 or 2 |
| RiskRule.RiskLabelBands | src/train_risk_model.py:29-31 | class 0 iff score < 0.08, class 1 iff 0.08 <= score < 0.18, class 2 iff score >= 0.18 |
| RiskRule.ScoreMonotone | src/train_risk_model.py:29 | raising any feature never lowers the score |
| RiskRule.RiskLabelMonotone | src/train_risk_model.py:29-31 | raising any feature never lowers the class |
| RiskRule.ZeroIsLowRisk | src/train_risk_model.py:29-31 | the all-zero row is class 0 |
| RiskRule.SpikesRaiseRisk | src/train_risk_model.py:23-31 | for non-negative rows, one spike alone gives at least class 1 and two give class 2 |
| RiskRule.ClipSession | src/train_risk_model.py:22 | the clipped session length is at least 1 and equals the input when that is at least 1 |
| RiskRule.Spike | src/train_risk_model.py:23 | the spike feature is in 0..4 and is 0 exactly when the Bernoulli draw is 0 |
| RiskRule.Generate | src/train_risk_model.py:17-32 | one row and one label per draw |
| RiskRule.GenerateRows | src/train_risk_model.py:20-31 | each row is built from its draw, is non-negative, has session >= 1 and spikes in 0..4, and its label is the rule applied to it |
| Demo.MapScaleFactor | src/main.py:33-35 | definition: `map_scalefactor` as written, `val / 100` |
| Demo.HumanLabel | src/main.py:50-51 | definition: `human_label_from_pred` |
| Demo.LoadConfig | src/main.py:97-113 | definition: what `reconhecimento` loads from the artifacts that exist |
| Demo.Answer | src/main.py:155 | definition: the recognizer's answer, or a raised prediction when no trained model was read |
| Demo.LabelText | src/main.py:151-162 | definition: the label text: the name from the labels map, `id N`, `ErroPredict`, or `Desconhecido` without a recognizer |
| Demo.ConfText | src/main.py:152-160 | definition: `conf ` and the confidence to one decimal, empty when there is none |
| Demo.Qualifies | src/main.py:167-171 | definition: a recognised face, not `Desconhecido`, whose parsed confidence is at least 50 |
| Demo.LowConfidence | src/main.py:167-171 | definition: a recognised face whose parsed confidence is below 50 |
| Demo.Draw | src/main.py:195-197 | definition: the two text lines drawn for a face |
| Demo.FaceStep | src/main.py:145-197 | definition: the body of the per-face loop: the timer, the login return and what is drawn |
| Demo.FacesFrom | src/main.py:143-197 | definition: the per-face loop over one frame, ending at a login |
| Demo.RunFrom | src/main.py:126-202 | definition: the `while True` loop from a gate: a failed read, the faces, then `q` |
| Demo.Run | src/main.py:122-202 | definition: the loop from an unset timer |
| Demo.HandledIn | src/main.py:143-182 | definition: the faces of one frame the loop handles, up to and including the one that logs in |
| Demo.HandledFrom | src/main.py:126-202 | definition: the faces the loop handles over the frames, stopping at a failed read, after the `q` frame and at the login face |
| Demo.Handled | src/main.py:122-202 | definition: the same from an unset timer |
| Demo.MapScaleFactorLeavesRange | src/main.py:33-35 | the as-written mapping turns trackbar positions 0 and 100 into 0.00 and 1.00, outside 1.05..2.00 |
| Demo.ScaleFactor | src/main.py:33-35 | the corrected mapping gives 1.05..2.00 on the trackbar's range, and agrees with `map_scalefactor` as written from 105 up |
| Demo.DetectorParamsFor | src/main.py:132-138 | the scale factor is the trackbar position divided by 100, as written; `minSize` is `max(20, v)` and `minNeighbors` is `max(1, n)` |
| Demo.DetectorParamsCorrected | src/main.py:132-138 | with the intended scale mapping the scale factor is above 1 (1.05..2.00 on the trackbar's range), equal to the as-written arguments from position 105 up |
| Demo.TextY | src/main.py:195 | the text line is at y-10 or below the box, and above 10 for non-negative y and h |
| Demo.HumanLabelNames | src/main.py:50-51 | 0, 1 and 2 map to BAIXO, MÉDIO and ALTO (each only from that value), every other value to DESCONHECIDO |
| Demo.RiskClassHasName | src/main.py:50-51 | every class the labelling rule produces has a name |
| Demo.LoadConfigRecognizer | src/main.py:97-113 | the recognizer is set exactly when both face files exist and `LBPHFaceRecognizer_create` succeeds, even when reading the files then fails; a trained model is read exactly when the recognizer is set and the model file loads; labels are only non-empty after a full load |
| Demo.LoadAfterTrain | src/main.py:99-104 | with the recognizer available, loading what training wrote gives back its id -> name map, provided the file is read in the encoding it was written in and from the folder it was written to (see "## Left out") |
| Demo.ConfTextParses | src/main.py:160-169 | the confidence text, with `"conf "` removed and parsed, is the confidence again |
| Demo.QualifyingFaceStartsTimer | src/main.py:171-174 | a qualifying face with the timer unset starts it at the current time, shows AUTORIZADO and does not end the loop |
| Demo.LoginExactlyAfterWindow | src/main.py:167-182 | a face ends the loop with True exactly when it qualifies, the timer is set and now - start >= 5 |
| Demo.QualifyingFaceKeepsStart | src/main.py:175-182 | once started, qualifying faces never move the start time |
| Demo.LowConfidenceResetsTimer | src/main.py:183-186 | a recognised face below 50 clears the timer and shows NAO AUTORIZADO, whatever the timer was |
| Demo.OtherFacesKeepTimer | src/main.py:143-193 | every other face leaves the timer alone and does not log in (resize failure, no recognizer, no trained model read, a raised prediction, label `Desconhecido`) |
| Demo.UnknownIdQualifies | src/main.py:156-167 | with a trained model read, an id missing from the labels map still qualifies, as `id N` |
| Demo.NeverIndefinido | src/main.py:168-189 | the INDEFINIDO status is never drawn, because the confidence text always parses |
| Demo.TrainedIdShowsFolderName | src/main.py:156-157 | after training and loading, a predicted folder id is shown with that folder's name, under the same two provisos as `Demo.LoadAfterTrain` |
| Demo.UndecodableLabelsShowIds | src/main.py:99-107 | a labels file written in cp1252 with the name `João` fails the UTF-8 test; the reader then keeps the recognizer with empty labels, shows every recognised id as `id N` and lets a confident one qualify |
| Demo.FrameOutcomes | src/main.py:126-202 | a failed read ends the loop at once; after `q` only that frame's faces are handled; a frame without faces changes nothing |
| Demo.FacesFromWithoutRecognizer | src/main.py:143-197 | with no recognizer or no trained model read, one frame's faces leave the timer as it was and do not log in |
| Demo.RunFromWithoutRecognizer | src/main.py:126-202 | with no recognizer or no trained model read, a run leaves the timer as it was and does not log in |
| Demo.NoRecognizerNeverLogsIn | src/main.py:97-193 | with no recognizer the timer is never set and the loop never returns True |
| Demo.UnreadableModelNeverLogsIn | src/main.py:100-155 | when the face model file exists but fails to load, every prediction raises, the timer is never set and the loop never returns True |
| Demo.HandledInPrefix | src/main.py:143-182 | the handled faces of a frame are a prefix of its faces, handling only them gives the same gate, and without a login they are all of them |
| Demo.FaceStepWitness | src/main.py:167-186 | one face keeps the record of which qualifying face started the timer, and a login face is the last of a witness pair |
| Demo.FacesFromWitness | src/main.py:143-197 | over one frame, a login is witnessed by the faces handled up to it, the login face last; without a login the record of who started the timer is kept |
| Demo.RunFromWitness | src/main.py:126-202 | over the frames, a login is witnessed by the faces the loop handled, the login face last |
| Demo.LoginNeedsUninterruptedWindow | src/main.py:122-193 | the loop returns True only at a qualifying face that the loop handled last, at least 5 seconds after an earlier handled qualifying face, with no low-confidence face handled between them |
| Demo.ScenarioLogin | src/main.py:171-182 | recognised at t = 100 and again at t = 105, the second face logs in |
| Demo.ScenarioReset | src/main.py:171-186 | a face at confidence 40 between t = 100 and t = 105 clears the timer, and the later face only restarts it |
| Demo.ScenarioQuit | src/main.py:200-202 | `q` on the frame of a face at t = 100 ends the loop: the face at t = 105 on the next frame is never handled and there is no login |
| Demo.HandleFaces | src/main.py:143-197 | the per-face loop, early return included, computes the specification over one frame's faces |
| Demo.Reconhecimento | src/main.py:122-210 | the loop returns True exactly when the specification logs in, and draws what it draws |

## Findings

| source | as written | input that shows it | evidently intended | confidence | as-written member | corrected member |
|---|---|---|---|---|---|---|
| src/main.py:33-35 | `map_scalefactor` divides the raw trackbar position by 100. The trackbar created on line 118 runs from 0 to 200. | trackbar at 100 gives 1.00; at 0 it gives 0.00 | values in 1.05..2.00, as the comment on line 34 says; the detector needs a scale factor above 1 | medium, not executed | Demo.MapScaleFactorLeavesRange | Demo.ScaleFactor |
| src/train_face_recognizer.py:42-43 | `open(LABELS_FILE, "w")` writes `labels.json` in the platform's default encoding with `ensure_ascii=False`, while src/main.py:103 decodes it as UTF-8 | a person folder named `João` trained on a cp1252 platform: the file holds the byte 0xE3 followed by `o`, decoding raises, the error is swallowed at src/main.py:106, the labels stay empty and the face is shown as `id 0` | the file written and read in one encoding (`encoding="utf-8"` on the writer), so the reader gets back the trained names | medium, not executed | Demo.UndecodableLabelsShowIds | Demo.LoadAfterTrain |

## Left out

- The camera, windows, trackbars, `imshow`/`waitKey`, the screenshot key `s` and the tkinter login window and dialogs are I/O and UI. Frames arrive as a finite sequence; running out of frames ends a loop like a failed read.
- Haar detection, LBPH training and prediction, `cv2.imread`/`cv2.resize` and `cv2.imwrite` are library calls. An image is modelled by its dimensions only. Each face comes with its resize outcome and the recognizer's answer.
- Demo.FaceStep: the confidence is taken as a whole number of tenths, already rounded. The rounding of the recognizer's float to one decimal is not modelled. Infinite and NaN confidences are not modelled: `float` parses the `inf` and `nan` that `:.1f` writes, so an infinite confidence would authorize and a NaN one would clear the timer (`nan >= 50` is false). Through the parse, the INDEFINIDO status is unreachable in the source as well; console output is not modelled (the `print` calls at src/main.py:179 and 186 and `cap.release` sit inside the same `try`).
- The random forest's fitting, prediction, metrics, train/test split and joblib persistence are external ML. The forest's class for a face is an input. A risk model file that exists but fails to load is not modelled. In the source that exception leaves `reconhecimento` and reaches `on_login`'s `except Exception`, which shows an error dialog while the login window stays open.
- `simulate_features_from_frame` and the random sampling in `generate_synthetic` are random. The draws are inputs to `RiskRule.Generate`, and only their ranges are stated.
- `time.time()` is an input, one timestamp per face, as a real number of seconds.
- `ensure_dir`, `on_login`'s exception handling, and the failure of `LBPHFaceRecognizer_create` in the trainer are left out.
- Dataset.FaceCount: the person's name is treated as one folder name of the collected-faces listing. `get_face_count` joins it onto the folder path, so `""` and `"."` count the regular files of the collected-faces folder itself, `".."` those of its parent, and a name with a `/` a nested folder. Those names are not modelled.
- Dataset.FaceCountBoundsSamples: says 0 for a name that is no sub-folder of the listing, which holds only for plain names; the path-like names above count other folders' files in the source.
- Trainer.Train: the data folder is assumed to exist. When it is missing, `os.listdir` raises inside `read_images_labels` and `train` raises before reaching its guard; the model returns NoImages only for an existing folder without decodable images.
- RiskRule.Score: computed on exact reals. numpy's float64 rounding is not modelled, which can move a score sitting exactly at 0.08 or 0.18 into the neighbouring class.
- Capture.CaptureFromKeepsPrefix: the model does not represent what the person's folder already holds. `count` restarts at 0 on every run, so a second session for the same person overwrites the first session's `000.png`, `001.png` and so on.
- The order of `os.listdir` inside a folder is unspecified. The model uses the listing order it is given.
- Dataset.ReadImagesLabels: the properties of its result (dense ids, name order) are stated for listings with distinct names, as a real directory listing has.
- Trainer.Invert requires distinct ids. For a map with repeated ids the result depends on dict iteration order. `read_images_labels` never produces such a map (Dataset.IdsDenseInNameOrder).
- Trainer.ReadLabels accepts only an optional `-` and decimal digits as a key. Python's `int` also accepts surrounding whitespace, `+` and underscores, which `json.dump` never writes. The JSON syntax itself, and duplicate keys in a hand-edited file, are not modelled: the file is its sequence of members.
- Demo.LoadAfterTrain and Demo.TrainedIdShowsFolderName assume that `reconhecimento` reads back what `train` wrote. Two things in the source can break that. The encoding: the trainer writes in the platform's default encoding and the reader decodes UTF-8 (see "## Findings"); a non-ASCII name then leaves the labels empty and faces are shown as `id N`, and on a platform whose code page lacks a character of a name `json.dump` raises inside `train`. Only cp1252 on characters below U+0080 or from U+00A0 to U+00FF is modelled. The location: `train` writes under the absolute project root (src/train_face_recognizer.py:13-18) and `reconhecimento` reads `models/` relative to the working directory (src/main.py:25-27); started from another folder it finds no face model and runs without a recognizer (`Demo.NoRecognizerNeverLogsIn`). The model assumes the working directory is the project root.
- Trainer.WriteLabels writes members in ascending id order. That equals the dict's insertion order because ids are assigned in increasing order.
- The counter text, the detector info text and the box rectangles drawn on frames are not modelled. Only the two text lines per face in the demo are kept.
