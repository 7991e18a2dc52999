/**
 * The dataset reader of `utils.py`: a root folder holds one sub-folder per
 * person; the sub-folders, taken in sorted name order, receive the dense ids
 * 0, 1, 2, ...; every image in them that decodes becomes a sample labelled
 * with its folder's id.
 *
 * A directory is modelled by its listing. An entry is a sub-folder (with the
 * listing of its own children, in the order `os.listdir` gives them) or
 * anything else. A child that is a regular file carries what `cv2.imread`
 * made of it: an image, or nothing when it returned None or raised.
 */
module Dataset {
  import opened Common
  import opened TextOrder

  /** A decoded grayscale image, by its dimensions; pixel values belong to the image library. */
  datatype Image = Image(width: nat, height: nat)

  datatype Child = Subfolder | RegularFile(decoded: Option<Image>)

  datatype Entry = Folder(name: string, children: seq<Child>) | NonFolder(name: string)

  predicate Decodable(c: Child)
  {
    c.RegularFile? && c.decoded.Some?
  }

  /** What one child contributes: its image when it decodes, nothing otherwise. */
  function ImageOf(c: Child): seq<Image>
  {
    if Decodable(c) then [c.decoded.value] else []
  }

  /** The images read from a folder, in listing order: sub-folders and undecodable files are skipped. */
  function Decoded(children: seq<Child>): (r: seq<Image>)
    ensures |r| <= |children|
    ensures forall i :: 0 <= i < |r| ==> RegularFile(Some(r[i])) in children
    ensures (forall i :: 0 <= i < |children| ==> Decodable(children[i])) ==> |r| == |children|
    ensures (forall i :: 0 <= i < |children| ==> !Decodable(children[i])) ==> r == []
  {
    if children == [] then []
    else
      Decoded(children[..|children| - 1]) + ImageOf(children[|children| - 1])
  }

  lemma DecodedPrefix(children: seq<Child>, j: nat)
    requires j < |children|
    ensures Decoded(children[..j + 1]) == Decoded(children[..j]) + ImageOf(children[j])
  {
    assert children[..j + 1][..j] == children[..j];
  }

  // ---------------------------------------------------------------------
  // Measures of a listing

  function Names(s: seq<Entry>): set<string>
  {
    if s == [] then {} else {s[0].name} + Names(s[1..])
  }

  /** No two entries of a directory listing share a name. */
  predicate DistinctNames(s: seq<Entry>)
  {
    s == [] || (s[0].name !in Names(s[1..]) && DistinctNames(s[1..]))
  }

  function FolderNameOf(e: Entry): set<string>
  {
    if e.Folder? then {e.name} else {}
  }

  function FolderOne(e: Entry): nat
  {
    if e.Folder? then 1 else 0
  }

  function SamplesOf(e: Entry): nat
  {
    if e.Folder? then |Decoded(e.children)| else 0
  }

  /** The names of the sub-folders. */
  function FolderNames(s: seq<Entry>): set<string>
  {
    if s == [] then {} else FolderNameOf(s[0]) + FolderNames(s[1..])
  }

  /** The number of sub-folders. */
  function FolderCount(s: seq<Entry>): nat
  {
    if s == [] then 0 else FolderOne(s[0]) + FolderCount(s[1..])
  }

  /** The number of decodable files over all sub-folders. */
  function SampleCount(s: seq<Entry>): nat
  {
    if s == [] then 0 else SamplesOf(s[0]) + SampleCount(s[1..])
  }

  // ---------------------------------------------------------------------
  // `sorted(os.listdir(base_dir))`

  /** Every name in s comes after x. */
  predicate Below(x: string, s: seq<Entry>)
  {
    forall n :: n in Names(s) ==> Less(x, n)
  }

  /** Strictly ascending by name. */
  predicate Ascending(s: seq<Entry>)
  {
    s == [] || (Below(s[0].name, s[1..]) && Ascending(s[1..]))
  }

  function Insert(e: Entry, s: seq<Entry>): seq<Entry>
  {
    if s == [] then [e]
    else if Less(s[0].name, e.name) then [s[0]] + Insert(e, s[1..])
    else [e] + s
  }

  /** The listing ordered by name, as `sorted` orders the names. */
  function SortByName(s: seq<Entry>): seq<Entry>
  {
    if s == [] then [] else Insert(s[0], SortByName(s[1..]))
  }

  lemma {:induction false} InsertPermutes(e: Entry, s: seq<Entry>)
    ensures multiset(Insert(e, s)) == multiset(s) + multiset{e}
    ensures Names(Insert(e, s)) == Names(s) + {e.name}
  {
    var r := Insert(e, s);
    if s != [] && Less(s[0].name, e.name) {
      InsertPermutes(e, s[1..]);
      assert r[1..] == Insert(e, s[1..]);
      assert s == [s[0]] + s[1..];
    }
  }

  lemma {:induction false} InsertCounts(e: Entry, s: seq<Entry>)
    ensures FolderNames(Insert(e, s)) == FolderNames(s) + FolderNameOf(e)
    ensures FolderCount(Insert(e, s)) == FolderCount(s) + FolderOne(e)
  {
    var r := Insert(e, s);
    if s != [] && Less(s[0].name, e.name) {
      InsertCounts(e, s[1..]);
      assert r[1..] == Insert(e, s[1..]);
    }
  }

  lemma {:induction false} InsertSamples(e: Entry, s: seq<Entry>)
    ensures SampleCount(Insert(e, s)) == SampleCount(s) + SamplesOf(e)
  {
    var r := Insert(e, s);
    if s != [] && Less(s[0].name, e.name) {
      InsertSamples(e, s[1..]);
      assert r[1..] == Insert(e, s[1..]);
    }
  }

  lemma {:induction false} InsertAscending(e: Entry, s: seq<Entry>)
    requires Ascending(s) && e.name !in Names(s)
    ensures Ascending(Insert(e, s))
  {
    var r := Insert(e, s);
    if s == [] {
      assert r[1..] == [];
    } else if Less(s[0].name, e.name) {
      InsertAscending(e, s[1..]);
      InsertPermutes(e, s[1..]);
      assert r[0] == s[0] && r[1..] == Insert(e, s[1..]);
    } else {
      assert r[0] == e && r[1..] == s;
      LessTotal(e.name, s[0].name);
      forall n | n in Names(s[1..]) ensures Less(e.name, n) {
        LessTransitive(e.name, s[0].name, n);
      }
    }
  }

  lemma {:induction false} SortPermutes(s: seq<Entry>)
    ensures multiset(SortByName(s)) == multiset(s)
    ensures Names(SortByName(s)) == Names(s)
  {
    if s != [] {
      SortPermutes(s[1..]);
      InsertPermutes(s[0], SortByName(s[1..]));
      assert s == [s[0]] + s[1..];
    }
  }

  lemma {:induction false} SortCounts(s: seq<Entry>)
    ensures FolderNames(SortByName(s)) == FolderNames(s)
    ensures FolderCount(SortByName(s)) == FolderCount(s)
    ensures SampleCount(SortByName(s)) == SampleCount(s)
  {
    if s != [] {
      SortCounts(s[1..]);
      InsertCounts(s[0], SortByName(s[1..]));
      InsertSamples(s[0], SortByName(s[1..]));
    }
  }

  lemma {:induction false} SortAscending(s: seq<Entry>)
    requires DistinctNames(s)
    ensures Ascending(SortByName(s))
  {
    if s != [] {
      SortAscending(s[1..]);
      SortPermutes(s[1..]);
      InsertAscending(s[0], SortByName(s[1..]));
    }
  }

  /** Sorting permutes the listing and keeps every measure; distinct names come out strictly ascending. */
  lemma SortKeeps(s: seq<Entry>)
    ensures multiset(SortByName(s)) == multiset(s)
    ensures Names(SortByName(s)) == Names(s)
    ensures FolderNames(SortByName(s)) == FolderNames(s)
    ensures FolderCount(SortByName(s)) == FolderCount(s)
    ensures SampleCount(SortByName(s)) == SampleCount(s)
    ensures DistinctNames(s) ==> Ascending(SortByName(s))
  {
    SortPermutes(s);
    SortCounts(s);
    if DistinctNames(s) {
      SortAscending(s);
    }
  }

  // ---------------------------------------------------------------------
  // `read_images_labels` as a specification

  /** The three results (faces, labels, label_to_id) and the counter current_id. */
  datatype Samples = Samples(faces: seq<Image>, labels: seq<int>, labelToId: map<string, int>, nextId: int)

  /** One turn of the outer loop: a sub-folder gets an id if it has none, then contributes its decodable images. */
  function AddEntry(st: Samples, e: Entry): Samples
  {
    match e
    case NonFolder(_) => st
    case Folder(name, children) =>
      var registered :=
        if name in st.labelToId then st
        else st.(labelToId := st.labelToId[name := st.nextId], nextId := st.nextId + 1);
      var id := registered.labelToId[name];
      var images := Decoded(children);
      registered.(faces := registered.faces + images, labels := registered.labels + Repeat(id, |images|))
  }

  function AddEntries(st: Samples, s: seq<Entry>): Samples
    decreases |s|
  {
    if s == [] then st else AddEntries(AddEntry(st, s[0]), s[1..])
  }

  /** n copies of an id. */
  function Repeat(id: int, n: nat): (r: seq<int>)
    ensures |r| == n
    ensures forall i :: 0 <= i < n ==> r[i] == id
  {
    if n == 0 then [] else Repeat(id, n - 1) + [id]
  }

  /** What `read_images_labels` returns for a root folder with this listing. */
  function Labelled(listing: seq<Entry>): Samples
  {
    AddEntries(Samples([], [], map[], 0), SortByName(listing))
  }

  /** Ids are exactly 0..n-1 and n counts the names. */
  predicate DenseIds(m: map<string, int>, n: int)
  {
    && n == |m|
    && (forall k :: k in m ==> 0 <= m[k] < n)
    && (forall i :: 0 <= i < n ==> i in m.Values)
  }

  /** One name sorts before another exactly when its id is smaller. */
  predicate IdsInNameOrder(m: map<string, int>)
  {
    forall k1, k2 :: k1 in m && k2 in m ==> (Less(k1, k2) <==> m[k1] < m[k2])
  }

  predicate LabelsBelow(labels: seq<int>, n: int)
  {
    forall i :: 0 <= i < |labels| ==> 0 <= labels[i] < n
  }

  predicate Nondecreasing(labels: seq<int>)
  {
    forall i, j :: 0 <= i <= j < |labels| ==> labels[i] <= labels[j]
  }

  /**
   * The invariant of the reader: faces and labels are parallel, ids are
   * exactly 0..nextId-1 and follow the name order, every label is an
   * assigned id and labels never decrease.
   */
  predicate WellLabelled(st: Samples)
  {
    && |st.faces| == |st.labels|
    && DenseIds(st.labelToId, st.nextId)
    && IdsInNameOrder(st.labelToId)
    && LabelsBelow(st.labels, st.nextId)
    && Nondecreasing(st.labels)
  }

  lemma RegisterDense(m: map<string, int>, n: int, name: string)
    requires DenseIds(m, n) && name !in m
    ensures DenseIds(m[name := n], n + 1)
  {
    var m' := m[name := n];
    forall i | 0 <= i < n + 1 ensures i in m'.Values {
      if i == n {
        assert m'[name] == i;
      } else {
        assert i in m.Values;
        var k :| k in m && m[k] == i;
        assert m'[k] == i;
      }
    }
  }

  lemma RegisterOrdered(m: map<string, int>, n: int, name: string)
    requires IdsInNameOrder(m)
    requires forall k :: k in m ==> Less(k, name) && m[k] < n
    ensures IdsInNameOrder(m[name := n])
  {
    var m' := m[name := n];
    forall k1, k2 | k1 in m' && k2 in m' ensures Less(k1, k2) <==> m'[k1] < m'[k2] {
      if k1 == name && k2 == name {
        LessIrreflexive(k1);
      } else if k1 == name {
        LessAsymmetric(k2, k1);
      }
    }
  }

  lemma AppendLabels(labels: seq<int>, n: int, id: int, count: nat)
    requires LabelsBelow(labels, n) && Nondecreasing(labels)
    requires 0 <= id < n
    requires forall i :: 0 <= i < |labels| ==> labels[i] <= id
    ensures LabelsBelow(labels + Repeat(id, count), n)
    ensures Nondecreasing(labels + Repeat(id, count))
  {
  }

  lemma AddEntryKeeps(st: Samples, e: Entry)
    requires WellLabelled(st)
    requires forall k :: k in st.labelToId ==> Less(k, e.name)
    ensures WellLabelled(AddEntry(st, e))
    ensures AddEntry(st, e).labelToId.Keys == st.labelToId.Keys + FolderNameOf(e)
    ensures AddEntry(st, e).nextId == st.nextId + FolderOne(e)
    ensures |AddEntry(st, e).faces| == |st.faces| + SamplesOf(e)
  {
    if e.Folder? {
      var m := st.labelToId;
      var id := st.nextId;
      if e.name in m {
        LessIrreflexive(e.name);
      }
      RegisterDense(m, id, e.name);
      RegisterOrdered(m, id, e.name);
      var images := Decoded(e.children);
      AppendLabels(st.labels, id + 1, id, |images|);
      var r := AddEntry(st, e);
      assert r == Samples(st.faces + images, st.labels + Repeat(id, |images|), m[e.name := id], id + 1);
    }
  }

  /** Every name already registered sorts before every name still to come. */
  predicate AllBefore(m: map<string, int>, s: seq<Entry>)
  {
    forall k, n :: k in m && n in Names(s) ==> Less(k, n)
  }

  lemma {:induction false} AddEntriesKeeps(st: Samples, s: seq<Entry>)
    requires WellLabelled(st)
    requires Ascending(s)
    requires AllBefore(st.labelToId, s)
    ensures WellLabelled(AddEntries(st, s))
    decreases |s|
  {
    if s != [] {
      AddEntryKeeps(st, s[0]);
      var st' := AddEntry(st, s[0]);
      NextAllBefore(st.labelToId, st'.labelToId, s);
      AddEntriesKeeps(st', s[1..]);
    }
  }

  lemma {:induction false} AddEntriesRegisters(st: Samples, s: seq<Entry>)
    requires WellLabelled(st)
    requires Ascending(s)
    requires AllBefore(st.labelToId, s)
    ensures AddEntries(st, s).labelToId.Keys == st.labelToId.Keys + FolderNames(s)
    ensures AddEntries(st, s).nextId == st.nextId + FolderCount(s)
    decreases |s|
  {
    if s != [] {
      AddEntryKeeps(st, s[0]);
      var st' := AddEntry(st, s[0]);
      NextAllBefore(st.labelToId, st'.labelToId, s);
      AddEntriesRegisters(st', s[1..]);
    }
  }

  lemma NextAllBefore(m: map<string, int>, m': map<string, int>, s: seq<Entry>)
    requires s != [] && Ascending(s) && AllBefore(m, s)
    requires m'.Keys <= m.Keys + {s[0].name}
    ensures AllBefore(m', s[1..])
  {
    assert Names(s) == {s[0].name} + Names(s[1..]);
    forall k, n | k in m' && n in Names(s[1..]) ensures Less(k, n) {
      if k != s[0].name {
        assert k in m;
      }
    }
  }

  lemma {:induction false} AddEntriesFaces(st: Samples, s: seq<Entry>)
    ensures |AddEntries(st, s).faces| == |st.faces| + SampleCount(s)
    decreases |s|
  {
    if s != [] {
      AddEntriesFaces(AddEntry(st, s[0]), s[1..]);
    }
  }

  /** The images of the sub-folders of s, folder after folder. */
  function FacesOf(s: seq<Entry>): seq<Image>
  {
    if s == [] then [] else (if s[0].Folder? then Decoded(s[0].children) else []) + FacesOf(s[1..])
  }

  /** For every image of `FacesOf(s)`, the id m gives to the folder it was read from. */
  function LabelsOf(m: map<string, int>, s: seq<Entry>): seq<int>
    requires FolderNames(s) <= m.Keys
  {
    if s == [] then []
    else (if s[0].Folder? then Repeat(m[s[0].name], |Decoded(s[0].children)|) else []) + LabelsOf(m, s[1..])
  }

  /** An id, once assigned, is never changed by later turns of the outer loop. */
  lemma {:induction false} AddEntriesExtends(st: Samples, s: seq<Entry>)
    ensures forall k :: k in st.labelToId ==>
      k in AddEntries(st, s).labelToId && AddEntries(st, s).labelToId[k] == st.labelToId[k]
    decreases |s|
  {
    if s != [] {
      AddEntriesExtends(AddEntry(st, s[0]), s[1..]);
    }
  }

  /** One sub-folder: its name gets an id, and its images are appended with that id. */
  lemma AddEntryFolder(st: Samples, e: Entry)
    requires e.Folder?
    ensures e.name in AddEntry(st, e).labelToId
    ensures AddEntry(st, e).faces == st.faces + Decoded(e.children)
    ensures AddEntry(st, e).labels == st.labels + Repeat(AddEntry(st, e).labelToId[e.name], |Decoded(e.children)|)
  {
  }

  /** `LabelsOf` depends only on the ids of the folders it covers. */
  lemma LabelsOfStep(m: map<string, int>, s: seq<Entry>)
    requires s != [] && FolderNames(s) <= m.Keys
    ensures FolderNames(s[1..]) <= m.Keys
    ensures s[0].Folder? ==> s[0].name in m
    ensures LabelsOf(m, s) ==
      (if s[0].Folder? then Repeat(m[s[0].name], |Decoded(s[0].children)|) else []) + LabelsOf(m, s[1..])
  {
  }

  /** The outer loop appends each folder's images, in folder order. */
  lemma {:induction false} AddEntriesImages(st: Samples, s: seq<Entry>)
    ensures AddEntries(st, s).faces == st.faces + FacesOf(s)
    decreases |s|
  {
    if s != [] {
      var st' := AddEntry(st, s[0]);
      AddEntriesImages(st', s[1..]);
      assert AddEntries(st, s) == AddEntries(st', s[1..]);
      if s[0].Folder? {
        AddEntryFolder(st, s[0]);
        assert FacesOf(s) == Decoded(s[0].children) + FacesOf(s[1..]);
        assert st'.faces + FacesOf(s[1..]) == st.faces + (Decoded(s[0].children) + FacesOf(s[1..]));
      } else {
        assert st' == st;
        assert FacesOf(s) == [] + FacesOf(s[1..]);
      }
    }
  }

  /** ... and labels each of them with the id its folder ends up with. */
  lemma {:induction false} AddEntriesSamples(st: Samples, s: seq<Entry>)
    ensures FolderNames(s) <= AddEntries(st, s).labelToId.Keys
    ensures AddEntries(st, s).labels == st.labels + LabelsOf(AddEntries(st, s).labelToId, s)
    decreases |s|
  {
    if s != [] {
      var st' := AddEntry(st, s[0]);
      var r := AddEntries(st', s[1..]);
      AddEntriesSamples(st', s[1..]);
      AddEntriesExtends(st', s[1..]);
      if s[0].Folder? {
        AddEntryFolder(st, s[0]);
        assert r.labelToId[s[0].name] == st'.labelToId[s[0].name];
      }
      assert FolderNames(s) == FolderNameOf(s[0]) + FolderNames(s[1..]);
      LabelsOfStep(r.labelToId, s);
      var ids := if s[0].Folder? then Repeat(r.labelToId[s[0].name], |Decoded(s[0].children)|) else [];
      assert st'.labels == st.labels + ids;
      assert r.labels == st.labels + (ids + LabelsOf(r.labelToId, s[1..]));
    }
  }

  /**
   * Faces and labels are parallel in meaning, not only in length: taking the
   * sub-folders in sorted order, `faces` is their decodable images folder
   * after folder and `labels` repeats each folder's own id once per image.
   */
  lemma LabelsFollowFolders(listing: seq<Entry>)
    ensures var d := Labelled(listing);
      && FolderNames(SortByName(listing)) <= d.labelToId.Keys
      && d.faces == FacesOf(SortByName(listing))
      && d.labels == LabelsOf(d.labelToId, SortByName(listing))
  {
    AddEntriesSamples(Samples([], [], map[], 0), SortByName(listing));
    AddEntriesImages(Samples([], [], map[], 0), SortByName(listing));
  }

  /** The reader's invariant holds of its result. */
  lemma LabelledWell(listing: seq<Entry>)
    requires DistinctNames(listing)
    ensures WellLabelled(Labelled(listing))
  {
    SortKeeps(listing);
    AddEntriesKeeps(Samples([], [], map[], 0), SortByName(listing));
  }

  /** The reader's result covers every sub-folder and every decodable file. */
  lemma LabelledCovers(listing: seq<Entry>)
    requires DistinctNames(listing)
    ensures Labelled(listing).labelToId.Keys == FolderNames(listing)
    ensures |Labelled(listing).labelToId| == FolderCount(listing)
    ensures |Labelled(listing).faces| == SampleCount(listing)
  {
    var empty := Samples([], [], map[], 0);
    var sorted := SortByName(listing);
    SortKeeps(listing);
    assert WellLabelled(empty);
    assert AllBefore(empty.labelToId, sorted);
    AddEntriesRegisters(empty, sorted);
    assert empty.labelToId.Keys + FolderNames(sorted) == FolderNames(listing);
    AddEntriesFaces(empty, sorted);
    assert Labelled(listing) == AddEntries(empty, sorted);
    LabelledWell(listing);
    assert DenseIds(Labelled(listing).labelToId, Labelled(listing).nextId);
  }

  /** Sub-folders receive the ids 0..n-1, each id once, in sorted name order. */
  lemma IdsDenseInNameOrder(listing: seq<Entry>)
    requires DistinctNames(listing)
    ensures var m := Labelled(listing).labelToId;
      && (forall k :: k in m ==> 0 <= m[k] < FolderCount(listing))
      && (forall n :: 0 <= n < FolderCount(listing) ==> n in m.Values)
      && (forall k1, k2 :: k1 in m && k2 in m ==> (Less(k1, k2) <==> m[k1] < m[k2]))
      && (forall k1, k2 :: k1 in m && k2 in m && k1 != k2 ==> m[k1] != m[k2])
  {
    LabelledWell(listing);
    LabelledCovers(listing);
    var m := Labelled(listing).labelToId;
    forall k1, k2 | k1 in m && k2 in m && k1 != k2 ensures m[k1] != m[k2] {
      LessTotal(k1, k2);
    }
  }

  /** Every sub-folder gets an id, even one with no decodable file, and nothing else does. */
  lemma EveryFolderGetsId(listing: seq<Entry>)
    requires DistinctNames(listing)
    ensures Labelled(listing).labelToId.Keys == FolderNames(listing)
    ensures |Labelled(listing).labelToId| == FolderCount(listing)
  {
    LabelledCovers(listing);
  }

  /** The images and their labels are parallel lists, one entry per decodable file. */
  lemma SamplesAligned(listing: seq<Entry>)
    requires DistinctNames(listing)
    ensures |Labelled(listing).faces| == |Labelled(listing).labels| == SampleCount(listing)
  {
    LabelledWell(listing);
    LabelledCovers(listing);
  }

  /** Every label is an assigned id, and labels never decrease in traversal order. */
  lemma LabelsAreAssignedIds(listing: seq<Entry>)
    requires DistinctNames(listing)
    ensures var d := Labelled(listing);
      && (forall i :: 0 <= i < |d.labels| ==> d.labels[i] in d.labelToId.Values)
      && (forall i, j :: 0 <= i <= j < |d.labels| ==> d.labels[i] <= d.labels[j])
  {
    LabelledWell(listing);
  }

  /** An entry that is not a folder gets no id and contributes no sample. */
  lemma NonFolderIgnored(st: Samples, name: string)
    ensures AddEntry(st, NonFolder(name)) == st
  {
  }

  /** A folder whose files all fail to decode still gets its id but contributes no sample. */
  lemma EmptyFolderStillRegistered(st: Samples, name: string, children: seq<Child>)
    requires forall i :: 0 <= i < |children| ==> !Decodable(children[i])
    ensures name in AddEntry(st, Folder(name, children)).labelToId
    ensures AddEntry(st, Folder(name, children)).faces == st.faces
    ensures AddEntry(st, Folder(name, children)).labels == st.labels
  {
  }

  /**
   * The inner loop of `read_images_labels`: every child that decodes is
   * appended to faces, and its folder's id to labels, together.
   */
  method ReadFolder(children: seq<Child>, id: int, faces0: seq<Image>, labels0: seq<int>)
    returns (faces: seq<Image>, labels: seq<int>)
    ensures faces == faces0 + Decoded(children)
    ensures labels == labels0 + Repeat(id, |Decoded(children)|)
  {
    faces, labels := faces0, labels0;
    for j := 0 to |children|
      invariant faces == faces0 + Decoded(children[..j])
      invariant labels == labels0 + Repeat(id, |Decoded(children[..j])|)
    {
      var child := children[j];
      DecodedPrefix(children, j);
      ghost var before := Decoded(children[..j]);
      if child.RegularFile? && child.decoded.Some? {
        assert ImageOf(child) == [child.decoded.value];
        faces := faces + [child.decoded.value];
        labels := labels + [id];
        assert faces == faces0 + (before + [child.decoded.value]);
        assert Repeat(id, |before| + 1) == Repeat(id, |before|) + [id];
      } else {
        assert ImageOf(child) == [];
        assert before + [] == before;
      }
    }
    assert children[..|children|] == children;
  }

  /** `read_images_labels`: the nested loops of the source, proved against Labelled. */
  method ReadImagesLabels(listing: seq<Entry>) returns (faces: seq<Image>, labels: seq<int>, labelToId: map<string, int>)
    ensures faces == Labelled(listing).faces
    ensures labels == Labelled(listing).labels
    ensures labelToId == Labelled(listing).labelToId
    ensures |faces| == |labels|
  {
    var sorted := SortByName(listing);
    faces, labels, labelToId := [], [], map[];
    var currentId := 0;
    for i := 0 to |sorted|
      invariant |faces| == |labels|
      invariant AddEntries(Samples(faces, labels, labelToId, currentId), sorted[i..]) == Labelled(listing)
    {
      var entry := sorted[i];
      ghost var st := Samples(faces, labels, labelToId, currentId);
      assert sorted[i..][0] == entry && sorted[i..][1..] == sorted[i + 1..];
      if entry.Folder? {
        var name := entry.name;
        if name !in labelToId {
          labelToId := labelToId[name := currentId];
          currentId := currentId + 1;
        }
        var id := labelToId[name];
        faces, labels := ReadFolder(entry.children, id, faces, labels);
      }
      assert AddEntry(st, entry) == Samples(faces, labels, labelToId, currentId);
    }
  }

  // ---------------------------------------------------------------------
  // `get_face_count`

  function Find(listing: seq<Entry>, name: string): (r: Option<Entry>)
    ensures r.Some? ==> r.value in listing && r.value.name == name
    ensures r.None? <==> name !in Names(listing)
  {
    if listing == [] then None
    else if listing[0].name == name then Some(listing[0])
    else Find(listing[1..], name)
  }

  /** Regular files in a folder listing (`os.path.isfile`). */
  function RegularFileCount(children: seq<Child>): nat
  {
    if children == [] then 0
    else RegularFileCount(children[..|children| - 1]) + (if children[|children| - 1].RegularFile? then 1 else 0)
  }

  /** `get_face_count(person)` over the listing of the collected-faces folder, for a person name that is a single path component. */
  function FaceCount(collected: seq<Entry>, person: string): nat
  {
    match Find(collected, person)
    case Some(Folder(_, children)) => RegularFileCount(children)
    case _ => 0
  }

  lemma {:induction false} DecodedAreRegularFiles(children: seq<Child>)
    ensures |Decoded(children)| <= RegularFileCount(children)
  {
    if children != [] {
      DecodedAreRegularFiles(children[..|children| - 1]);
    }
  }

  /**
   * A person with no folder counts 0; otherwise the count is the number of
   * regular files, which bounds the number of samples the reader takes from it.
   */
  lemma FaceCountBoundsSamples(collected: seq<Entry>, person: string)
    ensures person !in FolderNames(collected) ==> FaceCount(collected, person) == 0
    ensures forall children :: Find(collected, person) == Some(Folder(person, children)) ==>
      |Decoded(children)| <= FaceCount(collected, person)
  {
    if person !in FolderNames(collected) {
      FolderNamesFound(collected, person);
    }
    forall children | Find(collected, person) == Some(Folder(person, children))
      ensures |Decoded(children)| <= FaceCount(collected, person)
    {
      DecodedAreRegularFiles(children);
    }
  }

  lemma {:induction false} FolderNamesFound(s: seq<Entry>, name: string)
    requires name !in FolderNames(s)
    ensures Find(s, name).None? || Find(s, name).value.NonFolder?
  {
    if s != [] && s[0].name != name {
      FolderNamesFound(s[1..], name);
    }
  }
}
