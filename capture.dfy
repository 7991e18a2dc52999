/**
 * `capture_faces.py`: read frames until the camera fails, 'q' is pressed or
 * enough faces were saved; on SPACE save the largest detected face of the
 * frame as `<count:03d>.png` in the person's folder. The camera, the cascade
 * detector and the pixel work are outside the model: each frame arrives as
 * the boxes the detector found and the key read after showing it.
 */
module Capture {
  import opened Common
  import opened Decimal

  /** `ord(' ')`: save the largest face of the frame. */
  const SaveKey: KeyCode := 32

  /** One iteration's input: `cap.read()` failing, or the detected boxes and `waitKey(1) & 0xFF`. */
  datatype CameraRead = ReadFailed | Frame(boxes: seq<Box>, key: KeyCode)

  /** One `cv2.imwrite` call: the name inside the person's folder and the box that was cropped and resized to 200 x 200. Its result is ignored, so a failed write still advances the count. */
  datatype SavedFace = SavedFace(fileName: string, crop: Box)

  /** The loop state: the `count` variable and the files written so far. */
  datatype Session = Session(count: nat, saved: seq<SavedFace>)

  /**
   * `sorted(faces, key=lambda r: r[2]*r[3], reverse=True)[0]`: the index of a
   * box of largest area; Python's sort is stable, also with reverse=True, so
   * among equal areas the first detected box wins.
   */
  function LargestIndex(boxes: seq<Box>): (i: nat)
    requires |boxes| > 0
    ensures i < |boxes|
    ensures forall j :: 0 <= j < |boxes| ==> Area(boxes[j]) <= Area(boxes[i])
    ensures forall j :: 0 <= j < i ==> Area(boxes[j]) < Area(boxes[i])
    decreases |boxes|
  {
    if |boxes| == 1 then 0
    else
      var i := LargestIndex(boxes[..|boxes| - 1]);
      if Area(boxes[|boxes| - 1]) > Area(boxes[i]) then |boxes| - 1 else i
  }

  /** The two properties of LargestIndex pick exactly one index. */
  lemma LargestIndexUnique(boxes: seq<Box>, k: nat)
    requires k < |boxes|
    requires forall j :: 0 <= j < |boxes| ==> Area(boxes[j]) <= Area(boxes[k])
    requires forall j :: 0 <= j < k ==> Area(boxes[j]) < Area(boxes[k])
    ensures LargestIndex(boxes) == k
  {
  }

  /** `f"{count:03d}.png"`. */
  function FileName(count: nat): string
  {
    Pad3(count) + ".png"
  }

  /** Different counts never produce the same file name, so no capture overwrites another of the same session. */
  lemma FileNameInjective(a: nat, b: nat)
    requires FileName(a) == FileName(b)
    ensures a == b
  {
    var fa := FileName(a);
    assert fa[..|fa| - 4] == Pad3(a);
    assert FileName(b)[..|FileName(b)| - 4] == Pad3(b);
    Pad3Value(a);
    Pad3Value(b);
  }

  /** Below 1000 the name is three digits and ".png". */
  lemma FileNameShape(count: nat)
    requires count < 1000
    ensures |FileName(count)| == 7
    ensures AllDigits(FileName(count)[..3]) && DigitsValue(FileName(count)[..3]) == count
    ensures FileName(count)[3..] == ".png"
  {
    Pad3Value(count);
    assert FileName(count)[..3] == Pad3(count);
  }

  /** What the loop does with the frames from the current state on (`num` is `num_images`). */
  function CaptureFrom(num: int, s: Session, frames: seq<CameraRead>): Session
    decreases |frames|
  {
    if frames == [] then s
    else
      match frames[0]
      case ReadFailed => s
      case Frame(boxes, key) =>
        if key == QuitKey then s
        else if key == SaveKey && |boxes| > 0 then
          var next := Session(s.count + 1, s.saved + [SavedFace(FileName(s.count), boxes[LargestIndex(boxes)])]);
          if next.count >= num then next else CaptureFrom(num, next, frames[1..])
        else CaptureFrom(num, s, frames[1..])
  }

  /** `main(person_id, num_images, output_dir)` from a fresh count of zero. */
  function Capture(num: int, frames: seq<CameraRead>): Session
  {
    CaptureFrom(num, Session(0, []), frames)
  }

  /** The loop of `main`: the camera is the sequence of frames it will deliver; running out of frames ends the loop like a failed read. */
  method CaptureFaces(num: int, frames: seq<CameraRead>) returns (count: nat, saved: seq<SavedFace>)
    ensures Session(count, saved) == Capture(num, frames)
  {
    count := 0;
    saved := [];
    var i := 0;
    while i < |frames|
      invariant 0 <= i <= |frames|
      invariant CaptureFrom(num, Session(count, saved), frames[i..]) == Capture(num, frames)
      decreases |frames| - i
    {
      var frame := frames[i];
      if frame.ReadFailed? {
        break;
      }
      if frame.key == QuitKey {
        break;
      }
      if frame.key == SaveKey {
        if |frame.boxes| == 0 {
          i := i + 1;
          continue;
        }
        var largest := frame.boxes[LargestIndex(frame.boxes)];
        saved := saved + [SavedFace(FileName(count), largest)];
        count := count + 1;
        if count >= num {
          break;
        }
      }
      i := i + 1;
    }
  }

  /** The counter equals the number of files written, and the k-th file is named after k. */
  predicate WellNumbered(s: Session)
  {
    && s.count == |s.saved|
    && forall k :: 0 <= k < |s.saved| ==> s.saved[k].fileName == FileName(k)
  }

  /** Capturing only appends to what was saved before, keeping the numbering. */
  lemma {:induction false} CaptureFromKeepsNumbering(num: int, s: Session, frames: seq<CameraRead>)
    requires WellNumbered(s)
    ensures WellNumbered(CaptureFrom(num, s, frames))
    ensures |s.saved| <= |CaptureFrom(num, s, frames).saved|
    ensures CaptureFrom(num, s, frames).saved[..|s.saved|] == s.saved
    decreases |frames|
  {
    if frames != [] && frames[0].Frame? {
      var boxes := frames[0].boxes;
      var key := frames[0].key;
      if key != QuitKey {
        if key == SaveKey && |boxes| > 0 {
          var next := Session(s.count + 1, s.saved + [SavedFace(FileName(s.count), boxes[LargestIndex(boxes)])]);
          assert WellNumbered(next);
          if next.count < num {
            CaptureFromKeepsNumbering(num, next, frames[1..]);
            assert next.saved[..|s.saved|] == s.saved;
          } else {
            assert next.saved[..|s.saved|] == s.saved;
          }
        } else {
          CaptureFromKeepsNumbering(num, s, frames[1..]);
        }
      }
    }
  }

  /** A session saves files 000.png, 001.png, ... in that order, all with distinct names. */
  lemma CaptureNumbersFiles(num: int, frames: seq<CameraRead>)
    ensures var r := Capture(num, frames);
      && r.count == |r.saved|
      && (forall k :: 0 <= k < |r.saved| ==> r.saved[k].fileName == FileName(k))
      && (forall k, l :: 0 <= k < l < |r.saved| ==> r.saved[k].fileName != r.saved[l].fileName)
  {
    CaptureFromKeepsNumbering(num, Session(0, []), frames);
    var r := Capture(num, frames);
    forall k, l | 0 <= k < l < |r.saved|
      ensures r.saved[k].fileName != r.saved[l].fileName
    {
      if r.saved[k].fileName == r.saved[l].fileName {
        FileNameInjective(k, l);
      }
    }
  }

  /** The loop stops as soon as the count reaches num, so it never saves more than num files (one when num < 1). */
  lemma {:induction false} CaptureFromBounded(num: int, s: Session, frames: seq<CameraRead>)
    requires s.count < num || s.count == 0
    ensures CaptureFrom(num, s, frames).count <= if num < 1 then 1 else num
    decreases |frames|
  {
    if frames != [] && frames[0].Frame? {
      var boxes := frames[0].boxes;
      var key := frames[0].key;
      if key != QuitKey {
        if key == SaveKey && |boxes| > 0 {
          if s.count + 1 < num {
            CaptureFromBounded(num, Session(s.count + 1, s.saved + [SavedFace(FileName(s.count), boxes[LargestIndex(boxes)])]), frames[1..]);
          }
        } else {
          CaptureFromBounded(num, s, frames[1..]);
        }
      }
    }
  }

  lemma CaptureBounded(num: int, frames: seq<CameraRead>)
    ensures Capture(num, frames).count <= if num < 1 then 1 else num
  {
    CaptureFromBounded(num, Session(0, []), frames);
  }

  /** A frame that was SPACE with at least one detected face. */
  predicate SaveRequest(f: CameraRead)
  {
    f.Frame? && f.key == SaveKey && |f.boxes| > 0
  }

  /** The crop is the largest box of one of the frames on which SPACE was pressed with a face in view. */
  predicate LargestOfSomeRequest(crop: Box, frames: seq<CameraRead>)
  {
    exists f :: f in frames && SaveRequest(f) && crop == f.boxes[LargestIndex(f.boxes)]
  }

  lemma LargestOfSomeRequestTail(crop: Box, frames: seq<CameraRead>)
    requires frames != [] && LargestOfSomeRequest(crop, frames[1..])
    ensures LargestOfSomeRequest(crop, frames)
  {
    var f :| f in frames[1..] && SaveRequest(f) && crop == f.boxes[LargestIndex(f.boxes)];
    assert f in frames;
  }

  /** Every file written holds the largest box of some frame on which SPACE was pressed with a face in view. */
  lemma {:induction false} CaptureFromSavesLargest(num: int, s: Session, frames: seq<CameraRead>)
    ensures var r := CaptureFrom(num, s, frames);
      forall k :: |s.saved| <= k < |r.saved| ==> LargestOfSomeRequest(r.saved[k].crop, frames)
    decreases |frames|
  {
    var r := CaptureFrom(num, s, frames);
    if frames != [] && frames[0].Frame? && frames[0].key != QuitKey {
      var f := frames[0];
      var rest := frames[1..];
      if SaveRequest(f) {
        var next := Session(s.count + 1, s.saved + [SavedFace(FileName(s.count), f.boxes[LargestIndex(f.boxes)])]);
        if next.count < num {
          assert r == CaptureFrom(num, next, rest);
          CaptureFromSavesLargest(num, next, rest);
          CaptureFromKeepsPrefix(num, next, rest);
          forall k | |s.saved| <= k < |r.saved|
            ensures LargestOfSomeRequest(r.saved[k].crop, frames)
          {
            if k == |s.saved| {
              assert r.saved[k] == next.saved[k];
              assert f in frames;
            } else {
              assert LargestOfSomeRequest(r.saved[k].crop, rest);
              LargestOfSomeRequestTail(r.saved[k].crop, frames);
            }
          }
        } else {
          assert f in frames;
        }
      } else {
        assert r == CaptureFrom(num, s, rest);
        CaptureFromSavesLargest(num, s, rest);
        forall k | |s.saved| <= k < |r.saved|
          ensures LargestOfSomeRequest(r.saved[k].crop, frames)
        {
          LargestOfSomeRequestTail(r.saved[k].crop, frames);
        }
      }
    }
  }

  /** What a whole session saves comes from its save requests. */
  lemma CaptureSavesLargest(num: int, frames: seq<CameraRead>)
    ensures var r := Capture(num, frames);
      forall k :: 0 <= k < |r.saved| ==> LargestOfSomeRequest(r.saved[k].crop, frames)
  {
    var start := Session(0, []);
    var r := Capture(num, frames);
    CaptureFromSavesLargest(num, start, frames);
    forall k | 0 <= k < |r.saved|
      ensures LargestOfSomeRequest(r.saved[k].crop, frames)
    {
      assert r == CaptureFrom(num, start, frames);
      assert |start.saved| <= k < |CaptureFrom(num, start, frames).saved|;
    }
  }

  /** The saved list only grows, with what was saved before as its prefix. */
  lemma {:induction false} CaptureFromKeepsPrefix(num: int, s: Session, frames: seq<CameraRead>)
    ensures |s.saved| <= |CaptureFrom(num, s, frames).saved|
    ensures CaptureFrom(num, s, frames).saved[..|s.saved|] == s.saved
    decreases |frames|
  {
    if frames != [] && frames[0].Frame? && frames[0].key != QuitKey {
      var boxes := frames[0].boxes;
      if frames[0].key == SaveKey && |boxes| > 0 {
        var next := Session(s.count + 1, s.saved + [SavedFace(FileName(s.count), boxes[LargestIndex(boxes)])]);
        assert next.saved[..|s.saved|] == s.saved;
        if next.count < num {
          CaptureFromKeepsPrefix(num, next, frames[1..]);
        }
      } else {
        CaptureFromKeepsPrefix(num, s, frames[1..]);
      }
    }
  }

  /** 'q' and a failed read end the loop at once; SPACE without a face and any other key save nothing for that frame. */
  lemma CaptureFrameOutcomes(num: int, s: Session, f: CameraRead, rest: seq<CameraRead>)
    ensures f.ReadFailed? || f.key == QuitKey ==> CaptureFrom(num, s, [f] + rest) == s
    ensures f.Frame? && f.key != QuitKey && !SaveRequest(f) ==> CaptureFrom(num, s, [f] + rest) == CaptureFrom(num, s, rest)
  {
    assert ([f] + rest)[1..] == rest;
  }
}
