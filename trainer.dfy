/**
 * `train_face_recognizer.py`: refuse an empty dataset, normalise every sample
 * to 200 x 200, invert the name -> id map and persist it as labels.json,
 * whose keys are the ids written in decimal. The recognizer itself (LBPH
 * fitting and its model file) belongs to OpenCV and is not modelled.
 */
module Trainer {
  import opened Common
  import opened Decimal
  import opened Dataset

  /** The side of the square every sample is resized to. */
  const FaceSize: nat := 200

  /** `cv2.resize(f, (200, 200))`, by its effect on the dimensions. */
  function Resize(img: Image): Image
  {
    Image(FaceSize, FaceSize)
  }

  /** Resizing an image that is already 200 x 200 leaves its dimensions as they are. */
  lemma ResizeIdempotent(img: Image)
    ensures Resize(Resize(img)) == Resize(img)
    ensures img.width == FaceSize && img.height == FaceSize ==> Resize(img) == img
  {
  }

  /** `[cv2.resize(f, (200, 200)) for f in faces]`. */
  function ResizeAll(faces: seq<Image>): (r: seq<Image>)
    ensures |r| == |faces|
    ensures forall i :: 0 <= i < |r| ==> r[i].width == FaceSize && r[i].height == FaceSize
  {
    if faces == [] then [] else ResizeAll(faces[..|faces| - 1]) + [Resize(faces[|faces| - 1])]
  }

  predicate Injective(m: map<string, int>)
  {
    forall k1, k2 :: k1 in m && k2 in m && k1 != k2 ==> m[k1] != m[k2]
  }

  /** `{v: k for k, v in label_to_id.items()}` for a map with distinct ids. */
  function Invert(m: map<string, int>): (r: map<int, string>)
    requires Injective(m)
    ensures r.Keys == m.Values
    ensures forall k :: k in m ==> m[k] in r && r[m[k]] == k
    ensures forall v :: v in r ==> r[v] in m && m[r[v]] == v
  {
    map k | k in m :: m[k] := k
  }

  // ---------------------------------------------------------------------
  // labels.json

  /** The members of the JSON object in labels.json, in file order: (key text, label name). */
  type Members = seq<(string, string)>

  /** A non-empty finite set of integers has a least element. */
  lemma {:induction false} MinExists(keys: set<int>)
    requires keys != {}
    ensures exists k :: k in keys && forall j :: j in keys ==> k <= j
    decreases |keys|
  {
    assert exists y :: y in keys by {
      if forall y :: y !in keys {
        assert false;
      }
    }
    var x :| x in keys;
    if keys == {x} {
      assert forall j :: j in keys ==> x <= j;
    } else {
      var rest := keys - {x};
      assert |rest| < |keys|;
      MinExists(rest);
      var m :| m in rest && forall j :: j in rest ==> m <= j;
      CombineMin(keys, x, m);
    }
  }

  /** The smaller of x and the least element of the rest is the least element of all. */
  lemma CombineMin(keys: set<int>, x: int, m: int)
    requires x in keys && m in keys
    requires forall j :: j in keys - {x} ==> m <= j
    ensures exists k :: k in keys && forall j :: j in keys ==> k <= j
  {
    var least := if x < m then x else m;
    forall j | j in keys
      ensures least <= j
    {
      if j != x {
        assert j in keys - {x};
      }
    }
  }

  function MinKey(keys: set<int>): (k: int)
    requires keys != {}
    ensures k in keys && forall j :: j in keys ==> k <= j
  {
    MinExists(keys);
    var k :| k in keys && forall j :: j in keys ==> k <= j;
    k
  }

  /**
   * `json.dump(id_to_label, f)`: one member per id, its key written with
   * `str`. The dict is built from label_to_id, whose ids were assigned in
   * increasing order, so its members come out in ascending id order.
   */
  function WriteLabels(m: map<int, string>): (r: Members)
    ensures |r| == |m|
    decreases |m|
  {
    if |m| == 0 then []
    else
      var k := MinKey(m.Keys);
      [(IntToString(k), m[k])] + WriteLabels(m - {k})
  }

  /** Fold the members into the map: `acc[int(k)] = v`, a later member overriding an earlier one. */
  function ReadLabelsInto(acc: map<int, string>, members: Members): Option<map<int, string>>
    decreases |members|
  {
    if members == [] then Some(acc)
    else
      match ParseInt(members[0].0)
      case None => None
      case Some(id) => ReadLabelsInto(acc[id := members[0].1], members[1..])
  }

  /** `{int(k): v for k, v in json.load(f).items()}`; None is the ValueError of a key that is not an integer. */
  function ReadLabels(members: Members): Option<map<int, string>>
  {
    ReadLabelsInto(map[], members)
  }

  /** The written file starts with the smallest id and continues with the rest of the map. */
  lemma WriteLabelsFirst(m: map<int, string>)
    requires |m| > 0
    ensures MinKey(m.Keys) in m
    ensures WriteLabels(m) == [(IntToString(MinKey(m.Keys)), m[MinKey(m.Keys)])] + WriteLabels(m - {MinKey(m.Keys)})
  {
  }

  lemma ReadLabelsIntoStep(acc: map<int, string>, members: Members, id: int)
    requires members != [] && ParseInt(members[0].0) == Some(id)
    ensures ReadLabelsInto(acc, members) == ReadLabelsInto(acc[id := members[0].1], members[1..])
  {
  }

  lemma UpdateThenUnion(acc: map<int, string>, m: map<int, string>, k: int)
    requires k in m
    ensures acc[k := m[k]] + (m - {k}) == acc + m
  {
  }

  lemma {:induction false} ReadWriteInto(acc: map<int, string>, m: map<int, string>)
    ensures ReadLabelsInto(acc, WriteLabels(m)) == Some(acc + m)
    decreases |m|
  {
    if |m| == 0 {
      assert m == map[];
      assert acc + m == acc;
    } else {
      var k := MinKey(m.Keys);
      var rest := m - {k};
      WriteLabelsFirst(m);
      var w := WriteLabels(m);
      assert w[0] == (IntToString(k), m[k]) && w[1..] == WriteLabels(rest);
      ParseIntToString(k);
      ReadLabelsIntoStep(acc, w, k);
      ReadWriteInto(acc[k := m[k]], rest);
      UpdateThenUnion(acc, m, k);
    }
  }

  /** Writing the id -> name map as JSON and reading it back gives the same map. */
  lemma LabelsFileRoundTrip(m: map<int, string>)
    ensures ReadLabels(WriteLabels(m)) == Some(m)
  {
    ReadWriteInto(map[], m);
    assert map[] + m == m;
  }

  /** Every member of the written file is the decimal id and the name of one entry of the map. */
  lemma {:induction false} WrittenMembersFromMap(m: map<int, string>)
    ensures forall i :: 0 <= i < |WriteLabels(m)| ==>
      exists id :: id in m && WriteLabels(m)[i] == (IntToString(id), m[id])
    decreases |m|
  {
    if |m| > 0 {
      var k := MinKey(m.Keys);
      var rest := m - {k};
      WriteLabelsFirst(m);
      var w := WriteLabels(m);
      WrittenMembersFromMap(rest);
      forall i | 0 <= i < |w|
        ensures exists id :: id in m && w[i] == (IntToString(id), m[id])
      {
        if i == 0 {
          assert k in m && w[0] == (IntToString(k), m[k]);
        } else {
          assert w[i] == WriteLabels(rest)[i - 1];
          var id :| id in rest && WriteLabels(rest)[i - 1] == (IntToString(id), rest[id]);
          assert id in m && w[i] == (IntToString(id), m[id]);
        }
      }
    } else {
      assert |WriteLabels(m)| == 0;
    }
  }

  /** No two members of the written file share a key. */
  lemma {:induction false} WrittenKeysDistinct(m: map<int, string>)
    ensures forall i, j :: 0 <= i < j < |WriteLabels(m)| ==> WriteLabels(m)[i].0 != WriteLabels(m)[j].0
    decreases |m|
  {
    if |m| > 0 {
      var k := MinKey(m.Keys);
      var rest := m - {k};
      WriteLabelsFirst(m);
      var w := WriteLabels(m);
      WrittenKeysDistinct(rest);
      WrittenMembersFromMap(rest);
      forall i, j | 0 <= i < j < |w|
        ensures w[i].0 != w[j].0
      {
        assert w[j] == WriteLabels(rest)[j - 1];
        if i == 0 {
          var id :| id in rest && WriteLabels(rest)[j - 1] == (IntToString(id), rest[id]);
          if IntToString(k) == IntToString(id) {
            IntToStringInjective(k, id);
          }
        } else {
          assert w[i] == WriteLabels(rest)[i - 1];
        }
      }
    }
  }

  // ---------------------------------------------------------------------
  // `train`

  /** What `train()` leaves behind: nothing, or the training inputs and the labels file. */
  datatype Training =
    | NoImages
    | Trained(samples: seq<Image>, labels: seq<int>, idToLabel: map<int, string>, labelsFile: Members)

  /** `train()` over the collected-faces folder with this listing. */
  function Train(listing: seq<Entry>): Training
    requires DistinctNames(listing)
  {
    var d := Labelled(listing);
    if |d.faces| == 0 then NoImages
    else
      IdsDenseInNameOrder(listing);
      var idToLabel := Invert(d.labelToId);
      Trained(ResizeAll(d.faces), d.labels, idToLabel, WriteLabels(idToLabel))
  }

  /** With no decodable image, train returns before creating or writing anything. */
  lemma TrainGuard(listing: seq<Entry>)
    requires DistinctNames(listing)
    ensures Train(listing).NoImages? <==> SampleCount(listing) == 0
  {
    SamplesAligned(listing);
  }

  /** The recognizer gets one 200 x 200 sample per label. */
  lemma TrainedSamplesMatchLabels(listing: seq<Entry>)
    requires DistinctNames(listing)
    requires Train(listing).Trained?
    ensures var t := Train(listing);
      && |t.samples| == |t.labels| == SampleCount(listing)
      && forall i :: 0 <= i < |t.samples| ==> t.samples[i] == Image(FaceSize, FaceSize)
  {
    SamplesAligned(listing);
  }

  /** The inverted map sends every folder's id back to the folder's name. */
  lemma InversionRecoversNames(listing: seq<Entry>)
    requires DistinctNames(listing)
    requires Train(listing).Trained?
    ensures var m := Labelled(listing).labelToId;
      forall k :: k in m ==> Train(listing).idToLabel[m[k]] == k
  {
  }

  /** The inverted map has exactly the keys 0..n-1 for n sub-folders, and every training label has a name. */
  lemma InversionIsTotal(listing: seq<Entry>)
    requires DistinctNames(listing)
    requires Train(listing).Trained?
    ensures var t := Train(listing);
      && (forall n :: n in t.idToLabel <==> 0 <= n < FolderCount(listing))
      && (forall i :: 0 <= i < |t.labels| ==> t.labels[i] in t.idToLabel)
  {
    IdsDenseInNameOrder(listing);
    LabelsAreAssignedIds(listing);
  }

  /** The labels file read back with `int(k)` gives the same id -> name map. */
  lemma TrainedLabelsFileRoundTrip(listing: seq<Entry>)
    requires DistinctNames(listing)
    requires Train(listing).Trained?
    ensures ReadLabels(Train(listing).labelsFile) == Some(Train(listing).idToLabel)
  {
    LabelsFileRoundTrip(Train(listing).idToLabel);
  }
}
