/**
 * `main.py`: the live demo behind the Login button. `reconhecimento` reads
 * frames, labels every detected face and keeps one piece of state,
 * `auth_start_time`: a face recognised with confidence >= 50 starts the
 * timer, a later one at least 5 seconds after the start ends the loop with
 * `True`, a face below 50 clears the timer. The camera, the detector, the
 * LBPH recognizer, the risk forest and the clock are inputs: each face
 * arrives with whether its crop could be resized, the recognizer's answer
 * (confidence in tenths), the risk forest's class and the time it was seen.
 */
module Demo {
  import opened Common
  import opened Decimal
  import RiskRule
  import Trainer
  import Dataset
  import Encoding

  /** `AUTHORIZED_TIME`: seconds of continued recognition needed to log in. */
  const AuthorizedTime: real := 5.0
  /** `conf_value >= 50`, with the confidence in tenths. */
  const MinConfidenceTenths: int := 500

  // ---------------------------------------------------------------------
  // Detector settings read from the trackbars

  /** `map_scalefactor(val)`: `val / 100.0`, as written. */
  function MapScaleFactor(val: int): real
  {
    val as real / 100.0
  }

  /**
   * The scale trackbar runs from 0 to 200, so positions up to 100 give a
   * scale factor of at most 1.00, outside the 1.05..2.00 the mapping is meant
   * to produce (and not accepted by the detector, which needs more than 1).
   */
  lemma MapScaleFactorLeavesRange()
    ensures MapScaleFactor(100) == 1.0
    ensures MapScaleFactor(0) == 0.0
    ensures !(1.05 <= MapScaleFactor(100))
    ensures DetectorParamsFor(100, 5, 60).scaleFactor == 1.0
  {
  }

  /** The intended mapping: trackbar positions below 105 are read as 105. */
  function ScaleFactor(val: int): (r: real)
    ensures 0 <= val <= 200 ==> 1.05 <= r <= 2.0
    ensures 105 <= val ==> r == MapScaleFactor(val)
    ensures r > 1.0
  {
    if val < 105 then MapScaleFactor(105) else MapScaleFactor(val)
  }

  /** The parameters passed to `detectMultiScale`. */
  datatype DetectorParams = DetectorParams(scaleFactor: real, minNeighbors: int, minSize: int)

  /**
   * The arguments of `detectMultiScale` as written: `map_scalefactor` of the
   * scale position, `minNeighbors=max(1, n)` and `minSize = (max(20, v), max(20, v))`.
   */
  function DetectorParamsFor(scaleRaw: int, neighborsRaw: int, minSizeRaw: int): (p: DetectorParams)
    ensures p.scaleFactor == scaleRaw as real / 100.0
    ensures p.minNeighbors >= 1 && p.minNeighbors >= neighborsRaw
    ensures p.minNeighbors == neighborsRaw || p.minNeighbors == 1
    ensures p.minSize >= 20 && p.minSize >= minSizeRaw
    ensures p.minSize == minSizeRaw || p.minSize == 20
  {
    DetectorParams(MapScaleFactor(scaleRaw), if neighborsRaw < 1 then 1 else neighborsRaw, if minSizeRaw < 20 then 20 else minSizeRaw)
  }

  /** The same arguments with the intended scale mapping, which the detector accepts at every position. */
  function DetectorParamsCorrected(scaleRaw: int, neighborsRaw: int, minSizeRaw: int): (p: DetectorParams)
    ensures p.scaleFactor > 1.0
    ensures 0 <= scaleRaw <= 200 ==> 1.05 <= p.scaleFactor <= 2.0
    ensures 105 <= scaleRaw ==> p == DetectorParamsFor(scaleRaw, neighborsRaw, minSizeRaw)
    ensures p.minNeighbors == DetectorParamsFor(scaleRaw, neighborsRaw, minSizeRaw).minNeighbors
    ensures p.minSize == DetectorParamsFor(scaleRaw, neighborsRaw, minSizeRaw).minSize
  {
    DetectorParamsFor(scaleRaw, neighborsRaw, minSizeRaw).(scaleFactor := ScaleFactor(scaleRaw))
  }

  /** `y_text`: above the box when there is room, otherwise below it. */
  function TextY(y: int, h: int): (r: int)
    ensures y >= 0 && h >= 0 ==> r > 10
    ensures r == y - 10 || r == y + h + 20
    ensures r > 10 || r == y + h + 20
  {
    if y - 10 > 10 then y - 10 else y + h + 20
  }

  // ---------------------------------------------------------------------
  // Risk class names

  /** `human_label_from_pred(pred)`. */
  function HumanLabel(pred: int): string
  {
    if pred == 0 then "BAIXO"
    else if pred == 1 then "M\U{00C9}DIO"
    else if pred == 2 then "ALTO"
    else "DESCONHECIDO"
  }

  /** The three classes get three different names; every other value is unknown. */
  lemma HumanLabelNames(pred: int)
    ensures HumanLabel(pred) == "DESCONHECIDO" <==> !(0 <= pred <= 2)
    ensures pred == 0 <==> HumanLabel(pred) == "BAIXO"
    ensures pred == 1 <==> HumanLabel(pred) == "M\U{00C9}DIO"
    ensures pred == 2 <==> HumanLabel(pred) == "ALTO"
  {
    assert "BAIXO" != "DESCONHECIDO" && "ALTO" != "DESCONHECIDO" && "M\U{00C9}DIO" != "DESCONHECIDO";
    assert "BAIXO"[0] != "ALTO"[0] && "BAIXO"[0] != "M\U{00C9}DIO"[0] && "ALTO"[0] != "M\U{00C9}DIO"[0];
  }

  /** Every class the labelling rule produces has a name. */
  lemma RiskClassHasName(f: RiskRule.Features)
    ensures HumanLabel(RiskRule.RiskLabel(f)) != "DESCONHECIDO"
  {
    HumanLabelNames(RiskRule.RiskLabel(f));
  }

  // ---------------------------------------------------------------------
  // Loading the artifacts

  datatype FaceModelFile = NoFaceModel | UnreadableFaceModel | FaceModel
  datatype LabelsFile = NoLabelsFile | MalformedLabels | LabelsJson(members: Trainer.Members)

  /** What `reconhecimento` finds in the models folder. */
  datatype Artifacts = Artifacts(faceModel: FaceModelFile, labelsFile: LabelsFile, riskModelExists: bool)

  /**
   * What the loop runs with: whether `recognizer` is set, whether it holds the
   * trained model (`recognizer.read` succeeded), the `labels` map, and whether
   * `risk_model` is set.
   */
  datatype Config = Config(recognizerLoaded: bool, modelRead: bool, labels: map<int, string>, riskModelLoaded: bool)

  /**
   * The loading block. With both face files present the recognizer is
   * created first; `lbphAvailable` says whether `LBPHFaceRecognizer_create`
   * succeeds (it raises when the contrib `cv2.face` module is missing), and
   * then nothing is set. Once created, the recognizer stays set even when
   * reading the model raises, but then it holds no trained model; the labels
   * map is only assigned when the model was read and the whole file converts.
   */
  function LoadConfig(a: Artifacts, lbphAvailable: bool): Config
  {
    if a.faceModel.NoFaceModel? || a.labelsFile.NoLabelsFile? || !lbphAvailable then Config(false, false, map[], a.riskModelExists)
    else if a.faceModel.UnreadableFaceModel? then Config(true, false, map[], a.riskModelExists)
    else if a.labelsFile.MalformedLabels? then Config(true, true, map[], a.riskModelExists)
    else
      match Trainer.ReadLabels(a.labelsFile.members)
      case None => Config(true, true, map[], a.riskModelExists)
      case Some(labels) => Config(true, true, labels, a.riskModelExists)
  }

  /**
   * The recognizer is set exactly when both face files exist and it can be
   * created; the labels are non-empty only if everything loaded.
   */
  lemma LoadConfigRecognizer(a: Artifacts, lbphAvailable: bool)
    ensures LoadConfig(a, lbphAvailable).recognizerLoaded <==> !a.faceModel.NoFaceModel? && !a.labelsFile.NoLabelsFile? && lbphAvailable
    ensures LoadConfig(a, lbphAvailable).modelRead <==> LoadConfig(a, lbphAvailable).recognizerLoaded && a.faceModel.FaceModel?
    ensures LoadConfig(a, lbphAvailable).labels != map[] ==> a.faceModel.FaceModel? && a.labelsFile.LabelsJson? && lbphAvailable
    ensures LoadConfig(a, lbphAvailable).riskModelLoaded == a.riskModelExists
  {
  }

  /** With the recognizer available, loading what `train()` wrote gives back its id -> name map. */
  lemma LoadAfterTrain(listing: seq<Dataset.Entry>, riskModelExists: bool)
    requires Dataset.DistinctNames(listing)
    requires Trainer.Train(listing).Trained?
    ensures var t := Trainer.Train(listing);
      LoadConfig(Artifacts(FaceModel, LabelsJson(t.labelsFile), riskModelExists), true) == Config(true, true, t.idToLabel, riskModelExists)
  {
    Trainer.TrainedLabelsFileRoundTrip(listing);
  }

  // ---------------------------------------------------------------------
  // One face

  /** `recognizer.predict(face_resized)` raising, or returning a label id and a confidence in tenths. */
  datatype Prediction = PredictRaised | Predicted(labelId: int, confTenths: int)

  /** One detected face: its box, whether the crop resized, the recognizer's and the risk forest's answers, and `time.time()` when it is handled. */
  datatype Face = Face(box: Box, resizeOk: bool, prediction: Prediction, riskPrediction: int, now: real)

  /** What `recognizer.predict` gives for this face: a recognizer that read no trained model raises on every call. */
  function Answer(cfg: Config, face: Face): Prediction
  {
    if cfg.modelRead then face.prediction else PredictRaised
  }

  /** `label_text` after the recognition block. */
  function LabelText(cfg: Config, p: Prediction): string
  {
    if !cfg.recognizerLoaded then "Desconhecido"
    else
      match p
      case PredictRaised => "ErroPredict"
      case Predicted(id, _) => if id in cfg.labels then cfg.labels[id] else "id " + IntToString(id)
  }

  /** `conf_text` after the recognition block. */
  function ConfText(cfg: Config, p: Prediction): string
  {
    if cfg.recognizerLoaded && p.Predicted? then "conf " + FormatTenths(p.confTenths) else ""
  }

  /** The two lines drawn next to a face: `f"{label_text} {conf_text}"` at y_text and `f" {risk_text}"` 20 pixels lower. */
  datatype Overlay = Overlay(x: int, textY: int, caption: string, status: string)

  function Draw(face: Face, labelText: string, confText: string, riskText: string): Overlay
  {
    Overlay(face.box.x, TextY(face.box.y, face.box.h), labelText + " " + confText, " " + riskText)
  }

  /** The effect of one face: the new timer, what is drawn (nothing when the face is skipped or logs in), and whether the loop returns True. */
  datatype FaceOutcome = FaceOutcome(authStart: Option<real>, overlay: Option<Overlay>, loggedIn: bool)

  /** The body of `for (x,y,w,h) in faces`, for one face. */
  function FaceStep(cfg: Config, authStart: Option<real>, face: Face): FaceOutcome
  {
    if !face.resizeOk then FaceOutcome(authStart, None, false)
    else
      var labelText := LabelText(cfg, Answer(cfg, face));
      var confText := ConfText(cfg, Answer(cfg, face));
      if cfg.recognizerLoaded && labelText != "Desconhecido" && confText != "" then
        match ParseTenths(RemoveAll(confText, "conf "))
        case None => FaceOutcome(authStart, Some(Draw(face, labelText, confText, "INDEFINIDO")), false)
        case Some(confValue) =>
          if confValue >= MinConfidenceTenths then
            if authStart.None? then FaceOutcome(Some(face.now), Some(Draw(face, labelText, confText, "AUTORIZADO")), false)
            else if face.now - authStart.value >= AuthorizedTime then FaceOutcome(authStart, None, true)
            else FaceOutcome(authStart, Some(Draw(face, labelText, confText, "AUTORIZADO")), false)
          else FaceOutcome(None, Some(Draw(face, labelText, confText, "NAO AUTORIZADO")), false)
      else if cfg.riskModelLoaded then FaceOutcome(authStart, Some(Draw(face, labelText, confText, HumanLabel(face.riskPrediction))), false)
      else FaceOutcome(authStart, Some(Draw(face, labelText, confText, "NAO AUTORIZADO")), false)
  }

  /** A face that counts towards the login: recognised, its label text not "Desconhecido", confidence at least 50. */
  predicate Qualifies(cfg: Config, face: Face)
  {
    && face.resizeOk && cfg.recognizerLoaded && Answer(cfg, face).Predicted?
    && LabelText(cfg, Answer(cfg, face)) != "Desconhecido"
    && Answer(cfg, face).confTenths >= MinConfidenceTenths
  }

  /** A recognised face below the confidence threshold. */
  predicate LowConfidence(cfg: Config, face: Face)
  {
    && face.resizeOk && cfg.recognizerLoaded && Answer(cfg, face).Predicted?
    && LabelText(cfg, Answer(cfg, face)) != "Desconhecido"
    && Answer(cfg, face).confTenths < MinConfidenceTenths
  }

  /** The confidence text always parses back to the confidence it was made from. */
  lemma ConfTextParses(cfg: Config, p: Prediction)
    requires cfg.recognizerLoaded && p.Predicted?
    ensures ParseTenths(RemoveAll(ConfText(cfg, p), "conf ")) == Some(p.confTenths)
  {
    var number := FormatTenths(p.confTenths);
    var text := ConfText(cfg, p);
    assert text[..5] == "conf " && text[5..] == number;
    FormatTenthsHasNoC(p.confTenths);
    RemoveAllAbsent(number, "conf ");
    ParseFormatTenths(p.confTenths);
  }

  /** A qualifying face seen while the timer is unset starts it at the current time, is shown AUTORIZADO and does not end the loop. */
  lemma QualifyingFaceStartsTimer(cfg: Config, face: Face)
    requires Qualifies(cfg, face)
    ensures var o := FaceStep(cfg, None, face);
      && o.authStart == Some(face.now)
      && !o.loggedIn
      && o.overlay.Some? && o.overlay.value.status == " AUTORIZADO"
  {
    ConfTextParses(cfg, Answer(cfg, face));
  }

  /** The loop ends with True exactly on a qualifying face seen at least 5 seconds after the timer started. */
  lemma LoginExactlyAfterWindow(cfg: Config, authStart: Option<real>, face: Face)
    ensures FaceStep(cfg, authStart, face).loggedIn <==>
      Qualifies(cfg, face) && authStart.Some? && face.now - authStart.value >= AuthorizedTime
  {
    if face.resizeOk && cfg.recognizerLoaded && Answer(cfg, face).Predicted? {
      ConfTextParses(cfg, Answer(cfg, face));
    }
  }

  /** Once the timer is running, further qualifying faces never move its start. */
  lemma QualifyingFaceKeepsStart(cfg: Config, start: real, face: Face)
    requires Qualifies(cfg, face)
    ensures var o := FaceStep(cfg, Some(start), face);
      && o.authStart == Some(start)
      && (o.loggedIn || (o.overlay.Some? && o.overlay.value.status == " AUTORIZADO"))
  {
    ConfTextParses(cfg, Answer(cfg, face));
  }

  /** A recognised face below 50 clears the timer and is shown NAO AUTORIZADO, whatever the timer was. */
  lemma LowConfidenceResetsTimer(cfg: Config, authStart: Option<real>, face: Face)
    requires LowConfidence(cfg, face)
    ensures var o := FaceStep(cfg, authStart, face);
      && o.authStart == None
      && !o.loggedIn
      && o.overlay.Some? && o.overlay.value.status == " NAO AUTORIZADO"
  {
    ConfTextParses(cfg, Answer(cfg, face));
  }

  /**
   * Every other face leaves the timer alone: a crop that failed to resize,
   * any face without a recognizer or with a recognizer that read no trained
   * model, a prediction that raised, a label text of "Desconhecido".
   */
  lemma OtherFacesKeepTimer(cfg: Config, authStart: Option<real>, face: Face)
    requires !Qualifies(cfg, face) && !LowConfidence(cfg, face)
    ensures FaceStep(cfg, authStart, face).authStart == authStart
    ensures !FaceStep(cfg, authStart, face).loggedIn
  {
    if face.resizeOk && cfg.recognizerLoaded && Answer(cfg, face).Predicted? {
      ConfTextParses(cfg, Answer(cfg, face));
    }
  }

  /** An id that is not in the labels map is shown as "id N", which is not "Desconhecido", so it can log in. */
  lemma UnknownIdQualifies(cfg: Config, face: Face)
    requires face.resizeOk && cfg.recognizerLoaded && cfg.modelRead
    requires face.prediction.Predicted? && face.prediction.labelId !in cfg.labels
    requires face.prediction.confTenths >= MinConfidenceTenths
    ensures Qualifies(cfg, face)
  {
    var text := LabelText(cfg, Answer(cfg, face));
    assert text[0] == 'i';
  }

  /** The INDEFINIDO status is never drawn: the confidence text always parses. */
  lemma NeverIndefinido(cfg: Config, authStart: Option<real>, face: Face)
    ensures FaceStep(cfg, authStart, face).overlay.Some? ==>
      FaceStep(cfg, authStart, face).overlay.value.status != " INDEFINIDO"
  {
    if face.resizeOk && cfg.recognizerLoaded && Answer(cfg, face).Predicted? {
      ConfTextParses(cfg, Answer(cfg, face));
    }
    HumanLabelNames(face.riskPrediction);
    assert " INDEFINIDO"[1] != " BAIXO"[1] && " INDEFINIDO"[1] != " ALTO"[1];
    assert " INDEFINIDO"[1] != " M\U{00C9}DIO"[1] && " INDEFINIDO"[1] != " DESCONHECIDO"[1];
    assert " INDEFINIDO"[1] != " AUTORIZADO"[1] && " INDEFINIDO"[1] != " NAO AUTORIZADO"[1];
  }

  /** A face whose id the trainer assigned to a folder is shown with that folder's name. */
  lemma TrainedIdShowsFolderName(listing: seq<Dataset.Entry>, name: string, conf: int, riskModelExists: bool)
    requires Dataset.DistinctNames(listing)
    requires Trainer.Train(listing).Trained?
    requires name in Dataset.Labelled(listing).labelToId
    ensures var t := Trainer.Train(listing);
      var cfg := LoadConfig(Artifacts(FaceModel, LabelsJson(t.labelsFile), riskModelExists), true);
      LabelText(cfg, Predicted(Dataset.Labelled(listing).labelToId[name], conf)) == name
  {
    LoadAfterTrain(listing, riskModelExists);
    Trainer.InversionRecoversNames(listing);
  }

  /**
   * As written, `train` writes labels.json in the platform's encoding and
   * this loader decodes it as UTF-8. On a cp1252 platform a folder named
   * `João` makes the file undecodable; the error is swallowed, the recognizer
   * stays with no labels, and every recognised face, the trained ones
   * included, is shown as "id N" and still counts towards the login.
   */
  lemma UndecodableLabelsShowIds(riskModelExists: bool, face: Face)
    requires face.resizeOk && face.prediction.Predicted?
    ensures Encoding.Cp1252(Encoding.JoaoLabels).Some?
    ensures !Encoding.Utf8Structured(Encoding.Cp1252(Encoding.JoaoLabels).value)
    ensures var cfg := LoadConfig(Artifacts(FaceModel, MalformedLabels, riskModelExists), true);
      && cfg.labels == map[]
      && LabelText(cfg, Answer(cfg, face)) == "id " + IntToString(face.prediction.labelId)
      && (face.prediction.confTenths >= MinConfidenceTenths ==> Qualifies(cfg, face))
  {
    Encoding.Cp1252NameDoesNotDecode();
    var cfg := LoadConfig(Artifacts(FaceModel, MalformedLabels, riskModelExists), true);
    if face.prediction.confTenths >= MinConfidenceTenths {
      UnknownIdQualifies(cfg, face);
    }
  }

  // ---------------------------------------------------------------------
  // The loop over faces and frames

  /** The loop's state: `auth_start_time`, what was drawn so far, and whether it returned True. */
  datatype Gate = Gate(authStart: Option<real>, drawn: seq<Overlay>, loggedIn: bool)

  function Append(drawn: seq<Overlay>, o: Option<Overlay>): seq<Overlay>
  {
    if o.Some? then drawn + [o.value] else drawn
  }

  /** The gate after one face. */
  function After(cfg: Config, g: Gate, face: Face): Gate
  {
    var o := FaceStep(cfg, g.authStart, face);
    Gate(o.authStart, Append(g.drawn, o.overlay), o.loggedIn)
  }

  /** The faces of one frame, in detection order, stopping at a login. */
  function FacesFrom(cfg: Config, g: Gate, faces: seq<Face>): Gate
    decreases |faces|
  {
    if faces == [] || g.loggedIn then g
    else FacesFrom(cfg, After(cfg, g, faces[0]), faces[1..])
  }

  /** One iteration of `while True`: a failed read ends the loop, then the faces, then 'q'. */
  datatype CameraRead = ReadFailed | Frame(faces: seq<Face>, key: KeyCode)

  function RunFrom(cfg: Config, g: Gate, frames: seq<CameraRead>): Gate
    decreases |frames|
  {
    if frames == [] || g.loggedIn then g
    else
      match frames[0]
      case ReadFailed => g
      case Frame(faces, key) =>
        var next := FacesFrom(cfg, g, faces);
        if next.loggedIn || key == QuitKey then next else RunFrom(cfg, next, frames[1..])
  }

  /** `reconhecimento()` from an unset timer; running out of frames ends it like a failed read. */
  function Run(cfg: Config, frames: seq<CameraRead>): Gate
  {
    RunFrom(cfg, Gate(None, [], false), frames)
  }

  /** A failed read ends the loop as it is; after 'q' only the faces of that frame are handled; a frame without faces changes nothing. */
  lemma FrameOutcomes(cfg: Config, g: Gate, frame: CameraRead, rest: seq<CameraRead>)
    requires !g.loggedIn
    ensures frame.ReadFailed? ==> RunFrom(cfg, g, [frame] + rest) == g
    ensures frame.Frame? && frame.key == QuitKey ==> RunFrom(cfg, g, [frame] + rest) == FacesFrom(cfg, g, frame.faces)
    ensures frame.Frame? && frame.faces == [] && frame.key != QuitKey ==> RunFrom(cfg, g, [frame] + rest) == RunFrom(cfg, g, rest)
  {
    assert ([frame] + rest)[1..] == rest;
  }

  lemma {:induction false} FacesFromWithoutRecognizer(cfg: Config, g: Gate, faces: seq<Face>)
    requires (!cfg.recognizerLoaded || !cfg.modelRead) && !g.loggedIn
    ensures FacesFrom(cfg, g, faces).authStart == g.authStart
    ensures !FacesFrom(cfg, g, faces).loggedIn
    decreases |faces|
  {
    if faces != [] {
      OtherFacesKeepTimer(cfg, g.authStart, faces[0]);
      FacesFromWithoutRecognizer(cfg, After(cfg, g, faces[0]), faces[1..]);
    }
  }

  lemma {:induction false} RunFromWithoutRecognizer(cfg: Config, g: Gate, frames: seq<CameraRead>)
    requires (!cfg.recognizerLoaded || !cfg.modelRead) && !g.loggedIn
    ensures RunFrom(cfg, g, frames).authStart == g.authStart
    ensures !RunFrom(cfg, g, frames).loggedIn
    decreases |frames|
  {
    if frames != [] && frames[0].Frame? {
      FacesFromWithoutRecognizer(cfg, g, frames[0].faces);
      RunFromWithoutRecognizer(cfg, FacesFrom(cfg, g, frames[0].faces), frames[1..]);
    }
  }

  /** With no recognizer loaded the timer is never set and the loop never returns True. */
  lemma NoRecognizerNeverLogsIn(cfg: Config, frames: seq<CameraRead>)
    requires !cfg.recognizerLoaded
    ensures Run(cfg, frames).authStart == None
    ensures !Run(cfg, frames).loggedIn
  {
    RunFromWithoutRecognizer(cfg, Gate(None, [], false), frames);
  }

  /**
   * A face model file that fails to load leaves a recognizer without a
   * trained model: every prediction raises, so the timer is never set and the
   * loop never returns True.
   */
  lemma UnreadableModelNeverLogsIn(a: Artifacts, lbphAvailable: bool, frames: seq<CameraRead>)
    requires a.faceModel.UnreadableFaceModel?
    ensures Run(LoadConfig(a, lbphAvailable), frames).authStart == None
    ensures !Run(LoadConfig(a, lbphAvailable), frames).loggedIn
  {
    RunFromWithoutRecognizer(LoadConfig(a, lbphAvailable), Gate(None, [], false), frames);
  }

  /**
   * The faces of one frame the loop handles, in detection order: all of
   * them, or those up to and including the face that logs in.
   */
  function HandledIn(cfg: Config, g: Gate, faces: seq<Face>): seq<Face>
    decreases |faces|
  {
    if faces == [] || g.loggedIn then []
    else [faces[0]] + HandledIn(cfg, After(cfg, g, faces[0]), faces[1..])
  }

  /**
   * The faces the loop handles over the frames: it stops at a failed read,
   * after the frame on which 'q' was pressed, and at the face that logs in.
   */
  function HandledFrom(cfg: Config, g: Gate, frames: seq<CameraRead>): seq<Face>
    decreases |frames|
  {
    if frames == [] || g.loggedIn then []
    else
      match frames[0]
      case ReadFailed => []
      case Frame(faces, key) =>
        var next := FacesFrom(cfg, g, faces);
        HandledIn(cfg, g, faces) + (if next.loggedIn || key == QuitKey then [] else HandledFrom(cfg, next, frames[1..]))
  }

  function Handled(cfg: Config, frames: seq<CameraRead>): seq<Face>
  {
    HandledFrom(cfg, Gate(None, [], false), frames)
  }

  /**
   * The handled faces of a frame are a prefix of its faces, handling only
   * them leaves the same gate, and without a login they are all of them.
   */
  lemma {:induction false} HandledInPrefix(cfg: Config, g: Gate, faces: seq<Face>)
    ensures HandledIn(cfg, g, faces) <= faces
    ensures FacesFrom(cfg, g, HandledIn(cfg, g, faces)) == FacesFrom(cfg, g, faces)
    ensures !FacesFrom(cfg, g, faces).loggedIn ==> HandledIn(cfg, g, faces) == faces
    decreases |faces|
  {
    if faces != [] && !g.loggedIn {
      var next := After(cfg, g, faces[0]);
      var rest := HandledIn(cfg, next, faces[1..]);
      HandledInPrefix(cfg, next, faces[1..]);
      assert HandledIn(cfg, g, faces) == [faces[0]] + rest;
      assert ([faces[0]] + rest)[1..] == rest;
      assert FacesFrom(cfg, g, faces) == FacesFrom(cfg, next, faces[1..]);
      if !FacesFrom(cfg, g, faces).loggedIn {
        assert [faces[0]] + faces[1..] == faces;
      }
    }
  }

  /** A running timer was started by a qualifying face after which no face had low confidence. */
  predicate StartedBy(cfg: Config, authStart: Option<real>, seen: seq<Face>)
  {
    authStart.Some? ==>
      exists i :: 0 <= i < |seen| && Qualifies(cfg, seen[i]) && seen[i].now == authStart.value
        && forall k :: i < k < |seen| ==> !LowConfidence(cfg, seen[k])
  }

  /**
   * The last face logs in: it and an earlier qualifying face are at least
   * 5 seconds apart, with no low-confidence face between them.
   */
  predicate LoginWitnessed(cfg: Config, seen: seq<Face>)
  {
    && |seen| > 0
    && Qualifies(cfg, seen[|seen| - 1])
    && (exists i :: 0 <= i < |seen| - 1 && Qualifies(cfg, seen[i])
          && seen[|seen| - 1].now - seen[i].now >= AuthorizedTime
          && forall k :: i < k < |seen| - 1 ==> !LowConfidence(cfg, seen[k]))
  }

  lemma FaceStepWitness(cfg: Config, authStart: Option<real>, face: Face, seen: seq<Face>)
    requires StartedBy(cfg, authStart, seen)
    ensures StartedBy(cfg, FaceStep(cfg, authStart, face).authStart, seen + [face])
    ensures FaceStep(cfg, authStart, face).loggedIn ==> LoginWitnessed(cfg, seen + [face])
  {
    var all := seen + [face];
    var o := FaceStep(cfg, authStart, face);
    LoginExactlyAfterWindow(cfg, authStart, face);
    if LowConfidence(cfg, face) {
      LowConfidenceResetsTimer(cfg, authStart, face);
    } else if Qualifies(cfg, face) && authStart.None? {
      QualifyingFaceStartsTimer(cfg, face);
      assert all[|seen|] == face;
    } else {
      if Qualifies(cfg, face) {
        QualifyingFaceKeepsStart(cfg, authStart.value, face);
      } else {
        OtherFacesKeepTimer(cfg, authStart, face);
      }
      if authStart.Some? {
        var i :| 0 <= i < |seen| && Qualifies(cfg, seen[i]) && seen[i].now == authStart.value
          && forall k :: i < k < |seen| ==> !LowConfidence(cfg, seen[k]);
        assert all[i] == seen[i];
        forall k | i < k < |all|
          ensures !LowConfidence(cfg, all[k])
        {
          if k < |seen| {
            assert all[k] == seen[k];
          }
        }
        if o.loggedIn {
          assert all[|all| - 1] == face;
          assert forall k :: i < k < |all| - 1 ==> !LowConfidence(cfg, all[k]);
        }
      }
    }
  }

  lemma {:induction false} FacesFromWitness(cfg: Config, g: Gate, faces: seq<Face>, seen: seq<Face>)
    requires !g.loggedIn && StartedBy(cfg, g.authStart, seen)
    ensures FacesFrom(cfg, g, faces).loggedIn ==> LoginWitnessed(cfg, seen + HandledIn(cfg, g, faces))
    ensures !FacesFrom(cfg, g, faces).loggedIn ==> StartedBy(cfg, FacesFrom(cfg, g, faces).authStart, seen + faces)
    decreases |faces|
  {
    if faces == [] {
      assert seen + faces == seen;
    } else {
      var face := faces[0];
      var next := After(cfg, g, face);
      assert FacesFrom(cfg, g, faces) == FacesFrom(cfg, next, faces[1..]);
      assert HandledIn(cfg, g, faces) == [face] + HandledIn(cfg, next, faces[1..]);
      FaceStepWitness(cfg, g.authStart, face, seen);
      assert next.authStart == FaceStep(cfg, g.authStart, face).authStart;
      assert next.loggedIn == FaceStep(cfg, g.authStart, face).loggedIn;
      if next.loggedIn {
        assert FacesFrom(cfg, next, faces[1..]) == next;
        assert HandledIn(cfg, next, faces[1..]) == [];
        assert seen + HandledIn(cfg, g, faces) == seen + [face];
      } else {
        FacesFromWitness(cfg, next, faces[1..], seen + [face]);
        assert (seen + [face]) + faces[1..] == seen + faces;
        assert (seen + [face]) + HandledIn(cfg, next, faces[1..]) == seen + HandledIn(cfg, g, faces);
      }
    }
  }

  lemma {:induction false} RunFromWitness(cfg: Config, g: Gate, frames: seq<CameraRead>, seen: seq<Face>)
    requires !g.loggedIn && StartedBy(cfg, g.authStart, seen)
    ensures RunFrom(cfg, g, frames).loggedIn ==> LoginWitnessed(cfg, seen + HandledFrom(cfg, g, frames))
    decreases |frames|
  {
    if frames != [] && frames[0].Frame? {
      var faces := frames[0].faces;
      var next := FacesFrom(cfg, g, faces);
      var stop := next.loggedIn || frames[0].key == QuitKey;
      assert RunFrom(cfg, g, frames) == if stop then next else RunFrom(cfg, next, frames[1..]);
      assert HandledFrom(cfg, g, frames) ==
        HandledIn(cfg, g, faces) + (if stop then [] else HandledFrom(cfg, next, frames[1..]));
      FacesFromWitness(cfg, g, faces, seen);
      if next.loggedIn {
        assert HandledFrom(cfg, g, frames) == HandledIn(cfg, g, faces) + [];
        assert HandledIn(cfg, g, faces) + [] == HandledIn(cfg, g, faces);
      } else if !stop {
        HandledInPrefix(cfg, g, faces);
        RunFromWitness(cfg, next, frames[1..], seen + faces);
        assert (seen + faces) + HandledFrom(cfg, next, frames[1..]) == seen + HandledFrom(cfg, g, frames);
      }
    }
  }

  /**
   * The loop returns True only at a face that qualifies AUTHORIZED_TIME
   * seconds or more after an earlier qualifying face, with no low-confidence
   * face handled between them; the login face is the last face handled.
   */
  lemma LoginNeedsUninterruptedWindow(cfg: Config, frames: seq<CameraRead>)
    requires Run(cfg, frames).loggedIn
    ensures LoginWitnessed(cfg, Handled(cfg, frames))
  {
    RunFromWitness(cfg, Gate(None, [], false), frames, []);
    assert [] + Handled(cfg, frames) == Handled(cfg, frames);
  }

  lemma SingleFace(cfg: Config, g: Gate, face: Face)
    requires !g.loggedIn
    ensures FacesFrom(cfg, g, [face]) == After(cfg, g, face)
  {
    assert [face][1..] == [];
  }

  lemma RunFromFrame(cfg: Config, g: Gate, faces: seq<Face>, key: KeyCode, rest: seq<CameraRead>)
    requires !g.loggedIn
    ensures var next := FacesFrom(cfg, g, faces);
      RunFrom(cfg, g, [Frame(faces, key)] + rest) == if next.loggedIn || key == QuitKey then next else RunFrom(cfg, next, rest)
  {
    assert ([Frame(faces, key)] + rest)[1..] == rest;
  }

  /** A recognised face of "ana" with confidence c (in tenths) at time t. */
  function AnaAt(t: real, c: int): Face
  {
    Face(Box(10, 50, 100, 100), true, Predicted(0, c), 0, t)
  }

  const AnaConfig: Config := Config(true, true, map[0 := "ana"], false)

  lemma AnaRecognised(t: real, c: int)
    ensures c >= MinConfidenceTenths ==> Qualifies(AnaConfig, AnaAt(t, c))
    ensures c < MinConfidenceTenths ==> LowConfidence(AnaConfig, AnaAt(t, c))
  {
    assert LabelText(AnaConfig, Predicted(0, c)) == "ana";
    assert "ana" != "Desconhecido";
  }

  /** Recognised at 60.0 at t = 100 and again at t = 105: the second face logs in. */
  lemma ScenarioLogin()
    ensures Run(AnaConfig, [Frame([AnaAt(100.0, 600)], 0), Frame([AnaAt(105.0, 600)], 0)]).loggedIn
  {
    var first := AnaAt(100.0, 600);
    var second := AnaAt(105.0, 600);
    AnaRecognised(100.0, 600);
    AnaRecognised(105.0, 600);
    var g0 := Gate(None, [], false);
    QualifyingFaceStartsTimer(AnaConfig, first);
    SingleFace(AnaConfig, g0, first);
    var g1 := After(AnaConfig, g0, first);
    assert g1.authStart == Some(100.0) && !g1.loggedIn;
    LoginExactlyAfterWindow(AnaConfig, Some(100.0), second);
    SingleFace(AnaConfig, g1, second);
    assert After(AnaConfig, g1, second).loggedIn;
    RunFromFrame(AnaConfig, g0, [first], 0, [Frame([second], 0)]);
    RunFromFrame(AnaConfig, g1, [second], 0, []);
    assert [Frame([first], 0), Frame([second], 0)] == [Frame([first], 0)] + [Frame([second], 0)];
  }

  /** A face at 40.0 in between clears the timer, so the face at t = 105 only starts it again. */
  lemma ScenarioReset()
    ensures var r := Run(AnaConfig, [Frame([AnaAt(100.0, 600)], 0), Frame([AnaAt(102.0, 400)], 0), Frame([AnaAt(105.0, 600)], 0)]);
      !r.loggedIn && r.authStart == Some(105.0)
  {
    var first := AnaAt(100.0, 600);
    var low := AnaAt(102.0, 400);
    var third := AnaAt(105.0, 600);
    AnaRecognised(100.0, 600);
    AnaRecognised(102.0, 400);
    AnaRecognised(105.0, 600);
    var g0 := Gate(None, [], false);
    QualifyingFaceStartsTimer(AnaConfig, first);
    SingleFace(AnaConfig, g0, first);
    var g1 := After(AnaConfig, g0, first);
    assert g1.authStart == Some(100.0) && !g1.loggedIn;
    LowConfidenceResetsTimer(AnaConfig, Some(100.0), low);
    SingleFace(AnaConfig, g1, low);
    var g2 := After(AnaConfig, g1, low);
    assert g2.authStart == None && !g2.loggedIn;
    QualifyingFaceStartsTimer(AnaConfig, third);
    SingleFace(AnaConfig, g2, third);
    var g3 := After(AnaConfig, g2, third);
    assert g3.authStart == Some(105.0) && !g3.loggedIn;
    RunFromFrame(AnaConfig, g0, [first], 0, [Frame([low], 0), Frame([third], 0)]);
    RunFromFrame(AnaConfig, g1, [low], 0, [Frame([third], 0)]);
    RunFromFrame(AnaConfig, g2, [third], 0, []);
    assert [Frame([first], 0), Frame([low], 0), Frame([third], 0)] == [Frame([first], 0)] + [Frame([low], 0), Frame([third], 0)];
    assert [Frame([low], 0), Frame([third], 0)] == [Frame([low], 0)] + [Frame([third], 0)];
  }

  /** 'q' pressed on the frame of the first face: the loop ends there, so the face at t = 105 is never handled. */
  lemma ScenarioQuit()
    ensures var frames := [Frame([AnaAt(100.0, 600)], QuitKey), Frame([AnaAt(105.0, 600)], 0)];
      !Run(AnaConfig, frames).loggedIn && Handled(AnaConfig, frames) == [AnaAt(100.0, 600)]
  {
    var first := AnaAt(100.0, 600);
    var g0 := Gate(None, [], false);
    AnaRecognised(100.0, 600);
    QualifyingFaceStartsTimer(AnaConfig, first);
    SingleFace(AnaConfig, g0, first);
    var g1 := After(AnaConfig, g0, first);
    assert !g1.loggedIn;
    assert HandledIn(AnaConfig, g1, []) == [];
    assert HandledIn(AnaConfig, g0, [first]) == [first] + HandledIn(AnaConfig, g1, []);
    RunFromFrame(AnaConfig, g0, [first], QuitKey, [Frame([AnaAt(105.0, 600)], 0)]);
    assert [Frame([first], QuitKey), Frame([AnaAt(105.0, 600)], 0)] == [Frame([first], QuitKey)] + [Frame([AnaAt(105.0, 600)], 0)];
  }

  /** The inner `for` loop of `reconhecimento`, over the faces of one frame. */
  method HandleFaces(cfg: Config, authStart0: Option<real>, drawn0: seq<Overlay>, faces: seq<Face>)
    returns (authStart: Option<real>, drawn: seq<Overlay>, loggedIn: bool)
    ensures Gate(authStart, drawn, loggedIn) == FacesFrom(cfg, Gate(authStart0, drawn0, false), faces)
  {
    authStart, drawn, loggedIn := authStart0, drawn0, false;
    for j := 0 to |faces|
      invariant FacesFrom(cfg, Gate(authStart, drawn, false), faces[j..]) == FacesFrom(cfg, Gate(authStart0, drawn0, false), faces)
    {
      var face := faces[j];
      assert faces[j..][1..] == faces[j + 1..];
      if !face.resizeOk {
        continue;
      }
      var labelText := "Desconhecido";
      var confText := "";
      if cfg.recognizerLoaded {
        match if cfg.modelRead then face.prediction else PredictRaised {
          case PredictRaised =>
            labelText := "ErroPredict";
          case Predicted(labelId, confidence) =>
            if labelId in cfg.labels {
              labelText := cfg.labels[labelId];
            } else {
              labelText := "id " + IntToString(labelId);
            }
            confText := "conf " + FormatTenths(confidence);
        }
      }
      var riskText := "NAO AUTORIZADO";
      if cfg.recognizerLoaded && labelText != "Desconhecido" && confText != "" {
        var confValue := ParseTenths(RemoveAll(confText, "conf "));
        if confValue.None? {
          riskText := "INDEFINIDO";
        } else if confValue.value >= MinConfidenceTenths {
          riskText := "AUTORIZADO";
          if authStart.None? {
            authStart := Some(face.now);
          } else {
            var elapsed := face.now - authStart.value;
            if elapsed >= AuthorizedTime {
              loggedIn := true;
              return;
            }
          }
        } else {
          authStart := None;
          riskText := "NAO AUTORIZADO";
        }
      } else if cfg.riskModelLoaded {
        riskText := HumanLabel(face.riskPrediction);
      }
      drawn := drawn + [Draw(face, labelText, confText, riskText)];
    }
  }

  /** `reconhecimento()`: True when the login succeeded, and the texts drawn on the frames. */
  method Reconhecimento(cfg: Config, frames: seq<CameraRead>) returns (loggedIn: bool, drawn: seq<Overlay>)
    ensures loggedIn == Run(cfg, frames).loggedIn
    ensures drawn == Run(cfg, frames).drawn
  {
    var authStart: Option<real> := None;
    drawn := [];
    loggedIn := false;
    var i := 0;
    while i < |frames|
      invariant 0 <= i <= |frames|
      invariant RunFrom(cfg, Gate(authStart, drawn, false), frames[i..]) == Run(cfg, frames)
      decreases |frames| - i
    {
      var frame := frames[i];
      assert frames[i..][1..] == frames[i + 1..];
      if frame.ReadFailed? {
        break;
      }
      var done;
      authStart, drawn, done := HandleFaces(cfg, authStart, drawn, frame.faces);
      if done {
        loggedIn := true;
        return;
      }
      if frame.key == QuitKey {
        break;
      }
      i := i + 1;
    }
  }
}
