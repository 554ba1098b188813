/**
 * `create_cinc_manifest` for the PhysioNet/CinC 2016 layout, without the
 * file system: the listing of `input/cinc` (and of each folder in it) and
 * the text of each header file are inputs; the manifest rows are the result.
 */
module CincManifest {
  import opened Results
  import opened Strings
  import opened Ordering

  /** An entry of `input/cinc`: its name, whether it is a directory, and the names a directory lists. */
  datatype Entry = Entry(name: string, isDir: bool, listing: seq<string>)

  const TRAINING_PREFIX := "training-"
  const HEADER_SUFFIX := ".hea"
  const WAVE_SUFFIX := ".wav"
  /** The header line that carries the label starts with this marker. */
  const MARKER := "# "

  datatype CincError =
    | NotADirectory(name: string)           // `iterdir` on a `training-*` entry that is a file
    | NameMismatch(head: Path, wav: Path)   // AssertionError: a zipped pair names different recordings

  /** One manifest line: a waveform path and its label (empty when the header list ran out first). */
  datatype Row = Row(path: Path, tag: Option<string>)

  /** `PurePath.name`: the last part. */
  function Name(p: Path): string {
    if p == [] then [] else Last(p)
  }

  /** `head.name[:-4] == wav.name[:-4]`: both name the same recording. */
  predicate SameStem(head: Path, wav: Path) {
    DropLast(Name(head), 4) == DropLast(Name(wav), 4)
  }

  /**
   * For a header named `<stem>.hea` and a waveform named `<stem'>.wav`, the
   * check holds exactly when the waveform is the header's recording:
   * `stem' == stem`.
   */
  lemma SameRecording(head: Path, wav: Path)
    requires EndsWith(Name(head), HEADER_SUFFIX) && EndsWith(Name(wav), WAVE_SUFFIX)
    ensures SameStem(head, wav) <==> Name(wav) == DropLast(Name(head), 4) + WAVE_SUFFIX
  {
    DropLastRejoin(Name(head), 4);
    DropLastRejoin(Name(wav), 4);
  }

  /** `[path.resolve() for path in cinc.iterdir() if path.name.startswith('training-')]` */
  function TrainingFolders(entries: seq<Entry>): (folders: seq<Entry>)
    ensures |folders| <= |entries|
  {
    if entries == [] then []
    else
      var rest := TrainingFolders(entries[1..]);
      if StartsWith(entries[0].name, TRAINING_PREFIX) then [entries[0]] + rest else rest
  }

  /** An entry is a training folder exactly when it is listed and its name starts with `training-`. */
  lemma {:induction false} TrainingFoldersMembers(entries: seq<Entry>)
    ensures forall f :: f in TrainingFolders(entries) <==> f in entries && StartsWith(f.name, TRAINING_PREFIX)
  {
    if entries != [] {
      TrainingFoldersMembers(entries[1..]);
      assert forall f :: f in entries <==> f == entries[0] || f in entries[1..];
    }
  }

  /** `[p for p in folder.iterdir() if p.name.endswith(suffix)]` for a folder at `dir` listing `names`. */
  function ListedFiles(dir: Path, names: seq<string>, suffix: string): (files: seq<Path>)
    ensures |files| <= |names|
  {
    if names == [] then []
    else
      var rest := ListedFiles(dir, names[1..], suffix);
      if EndsWith(names[0], suffix) then [dir + [names[0]]] + rest else rest
  }

  /** A path is listed exactly when it is `dir` followed by a listed name ending in the suffix. */
  lemma {:induction false} ListedFilesMembers(dir: Path, names: seq<string>, suffix: string)
    ensures forall p :: p in ListedFiles(dir, names, suffix) <==>
      exists e :: e in names && EndsWith(e, suffix) && p == dir + [e]
  {
    if names != [] {
      ListedFilesMembers(dir, names[1..], suffix);
      assert forall x :: x in names <==> x == names[0] || x in names[1..];
    }
  }

  /**
   * The folder filter keeps listing order and multiplicity: filtering two
   * parts filters each in turn.
   */
  lemma {:induction false} TrainingFoldersConcat(a: seq<Entry>, b: seq<Entry>)
    ensures TrainingFolders(a + b) == TrainingFolders(a) + TrainingFolders(b)
    decreases |a|
  {
    if a == [] {
      assert a + b == b;
    } else {
      var ab := a + b;
      assert ab[0] == a[0] && ab[1..] == a[1..] + b;
      TrainingFoldersConcat(a[1..], b);
    }
  }

  /** A single entry is kept exactly when its name starts with `training-`. */
  lemma TrainingFoldersSingle(e: Entry)
    ensures TrainingFolders([e]) == if StartsWith(e.name, TRAINING_PREFIX) then [e] else []
  {
    assert [e][1..] == [];
  }

  /**
   * The suffix filter keeps listing order and multiplicity: filtering two
   * parts filters each in turn.
   */
  lemma {:induction false} ListedFilesConcat(dir: Path, a: seq<string>, b: seq<string>, suffix: string)
    ensures ListedFiles(dir, a + b, suffix) == ListedFiles(dir, a, suffix) + ListedFiles(dir, b, suffix)
    decreases |a|
  {
    if a == [] {
      assert a + b == b;
    } else {
      var ab := a + b;
      assert ab[0] == a[0] && ab[1..] == a[1..] + b;
      ListedFilesConcat(dir, a[1..], b, suffix);
    }
  }

  /** A single name is kept, under `dir`, exactly when it ends in the suffix. */
  lemma ListedFilesSingle(dir: Path, e: string, suffix: string)
    ensures ListedFiles(dir, [e], suffix) == if EndsWith(e, suffix) then [dir + [e]] else []
  {
    assert [e][1..] == [];
  }

  /** The files of one training folder, under `root`, whose names end in `suffix`. */
  function FolderFiles(root: Path, folder: Entry, suffix: string): seq<Path> {
    ListedFiles(root + [folder.name], folder.listing, suffix)
  }

  /** What the `extend` loop accumulates over `folders`, folder by folder. */
  function CollectFiles(root: Path, folders: seq<Entry>, suffix: string): seq<Path> {
    if folders == [] then []
    else CollectFiles(root, folders[..|folders| - 1], suffix) + FolderFiles(root, Last(folders), suffix)
  }

  /** The first folder that is not a directory, if any. */
  function FirstFile(folders: seq<Entry>): Option<Entry> {
    if folders == [] then None
    else if !folders[0].isDir then Some(folders[0])
    else FirstFile(folders[1..])
  }

  /** `f.read().split('# ')[-1].replace('\n', '')` */
  function HeaderLabel(text: string): (word: string)
    ensures '\n' !in word
  {
    RemoveAll(Last(Split(text, MARKER)), '\n')
  }

  /** Opening a header and extracting its label, given what reading each file yields. */
  function HeaderReader(read: Path -> string): Path -> string {
    p => HeaderLabel(read(p))
  }

  /**
   * The `zip` loop from pair `i` on, with the labels `acc` gathered so far,
   * where `labelOf` gives a header's label: it stops at the shorter list,
   * and fails at the first pair naming different recordings.
   */
  function PairLabels(heads: seq<Path>, wavs: seq<Path>, labelOf: Path -> string, i: nat, acc: seq<string>): Result<seq<string>, CincError>
    decreases |heads| - i
  {
    if i >= |heads| || i >= |wavs| then Ok(acc)
    else if !SameStem(heads[i], wavs[i]) then Err(NameMismatch(heads[i], wavs[i]))
    else PairLabels(heads, wavs, labelOf, i + 1, acc + [labelOf(heads[i])])
  }

  /** `pd.DataFrame([wav_paths, labels]).T`: one row per waveform, missing labels left empty. */
  function ManifestRows(wavs: seq<Path>, labels: seq<string>): (rows: seq<Row>)
    ensures |rows| == |wavs|
    ensures forall k :: 0 <= k < |wavs| ==> rows[k].path == wavs[k]
    ensures forall k :: 0 <= k < |wavs| ==> (rows[k].tag.Some? <==> k < |labels|)
    ensures forall k :: 0 <= k < |wavs| && k < |labels| ==> rows[k].tag == Some(labels[k])
  {
    seq(|wavs|, k requires 0 <= k < |wavs| => Row(wavs[k], if k < |labels| then Some(labels[k]) else None))
  }

  /** The sorted header and waveform lists. */
  function SortedFiles(root: Path, entries: seq<Entry>, suffix: string): seq<Path> {
    SortedBy(CollectFiles(root, TrainingFolders(entries), suffix), PathLe)
  }

  /** What `create_cinc_manifest` writes for `input/cinc` at `root`, or the exception that stops it. */
  function CincManifest(root: Path, entries: seq<Entry>, read: Path -> string): Result<seq<Row>, CincError> {
    var folders := TrainingFolders(entries);
    if FirstFile(folders).Some? then Err(NotADirectory(FirstFile(folders).value.name))
    else
      var heads := SortedFiles(root, entries, HEADER_SUFFIX);
      var wavs := SortedFiles(root, entries, WAVE_SUFFIX);
      match PairLabels(heads, wavs, HeaderReader(read), 0, [])
      case Err(e) => Err(e)
      case Ok(labels) => Ok(ManifestRows(wavs, labels))
  }

  /** The first folder that is a file is the one the `extend` loop stops at. */
  lemma {:induction false} FirstFileAt(folders: seq<Entry>, i: nat)
    requires i < |folders| && !folders[i].isDir
    requires forall k :: 0 <= k < i ==> folders[k].isDir
    ensures FirstFile(folders) == Some(folders[i])
  {
    if i > 0 { FirstFileAt(folders[1..], i - 1); }
  }

  /** No folder is a file exactly when every `training-*` entry is a directory. */
  lemma {:induction false} FirstFileNone(folders: seq<Entry>)
    ensures FirstFile(folders) == None <==> forall k :: 0 <= k < |folders| ==> folders[k].isDir
  {
    if folders != [] {
      FirstFileNone(folders[1..]);
      assert forall k :: 1 <= k < |folders| ==> folders[k] == folders[1..][k - 1];
    }
  }

  /** Header text without the marker yields all of its text, minus newlines. */
  lemma HeaderLabelWithoutMarker(text: string)
    requires !Contains(text, MARKER)
    ensures HeaderLabel(text) == RemoveAll(text, '\n')
  {
    LastPieceAfterLastSeparator(text, MARKER);
  }

  /**
   * A suffix `l` of `text` that directly follows a marker is the part `tail`
   * after the marker at `m`, unless `l` or `tail` holds a marker itself.
   */
  lemma SuffixAfterLastMarker(text: string, m: nat, tail: string, l: string)
    requires m + 2 <= |text| && text[m..m + 2] == MARKER && tail == text[m + 2..]
    requires |l| + 2 <= |text| && l == text[|text| - |l|..]
    requires text[|text| - |l| - 2..|text| - |l|] == MARKER
    ensures l == tail || Contains(tail, MARKER) || Contains(l, MARKER)
  {
    var s := |text| - |l|;
    if s <= m {
      MarkerInSuffix(text, s, m);
    } else if s == m + 1 {
      MarkerCharacters(text, s - 2);
      MarkerCharacters(text, m);
      assert false;
    } else if s == m + 3 {
      MarkerCharacters(text, m);
      MarkerCharacters(text, s - 2);
      assert false;
    } else if s > m + 3 {
      MarkerInSuffix(text, m + 2, s - 2);
    }
  }

  /** A marker at `i` is the characters `#` and space. */
  lemma MarkerCharacters(text: string, i: nat)
    requires i + 2 <= |text| && text[i..i + 2] == MARKER
    ensures text[i] == '#' && text[i + 1] == ' '
  {
    assert text[i] == text[i..i + 2][0] && text[i + 1] == text[i..i + 2][1];
  }

  /** A marker at `m` lies inside every suffix of `text` that starts at or before `m`. */
  lemma MarkerInSuffix(text: string, s: nat, m: nat)
    requires s <= m && m + 2 <= |text| && text[m..m + 2] == MARKER
    ensures Contains(text[s..], MARKER)
  {
    assert text[s..][m - s..m - s + 2] == text[m..m + 2];
    OccursContains(text[s..], MARKER, m - s);
  }

  /**
   * The label is the text after the last marker, minus newlines: for header
   * text `pre + "# " + tail` where `tail` holds no marker, it is `tail`
   * without its newlines, whatever `pre` is.
   */
  lemma HeaderLabelAfterLastMarker(pre: string, tail: string)
    requires !Contains(tail, MARKER)
    ensures HeaderLabel(pre + MARKER + tail) == RemoveAll(tail, '\n')
  {
    var text := pre + MARKER + tail;
    assert text[|pre|..|pre| + 2] == MARKER && text[|pre| + 2..] == tail;
    OccursContains(text, MARKER, |pre|);
    LastPieceAfterLastSeparator(text, MARKER);
    SuffixAfterLastMarker(text, |pre|, tail, Last(Split(text, MARKER)));
  }

  /** The label of each header in `heads`, in order. */
  function ReadLabels(heads: seq<Path>, labelOf: Path -> string): (labels: seq<string>)
    ensures |labels| == |heads|
  {
    if heads == [] then [] else [labelOf(heads[0])] + ReadLabels(heads[1..], labelOf)
  }

  lemma ReadLabelsStep(heads: seq<Path>, labelOf: Path -> string, i: nat, n: nat)
    requires i < n <= |heads|
    ensures ReadLabels(heads[i..n], labelOf) == [labelOf(heads[i])] + ReadLabels(heads[i + 1..n], labelOf)
  {
    assert heads[i..n][1..] == heads[i + 1..n];
  }

  lemma {:induction false} ReadLabelsAt(heads: seq<Path>, labelOf: Path -> string, k: nat)
    requires k < |heads|
    ensures ReadLabels(heads, labelOf)[k] == labelOf(heads[k])
  {
    if k > 0 { ReadLabelsAt(heads[1..], labelOf, k - 1); }
  }

  /**
   * The zipped pairs from `i` on: the loop succeeds exactly when every pair
   * up to the shorter list's end names the same recording.
   */
  lemma {:induction false} PairLabelsSucceeds(heads: seq<Path>, wavs: seq<Path>, labelOf: Path -> string, i: nat, acc: seq<string>)
    requires i <= |heads| && i <= |wavs|
    ensures PairLabels(heads, wavs, labelOf, i, acc).Ok? <==>
      forall k :: i <= k < |heads| && k < |wavs| ==> SameStem(heads[k], wavs[k])
    decreases |heads| - i
  {
    if i < |heads| && i < |wavs| && SameStem(heads[i], wavs[i]) {
      PairLabelsSucceeds(heads, wavs, labelOf, i + 1, acc + [labelOf(heads[i])]);
    }
  }

  /**
   * When every pair up to the shorter list's end names the same recording,
   * the loop yields one label per pair, read from that pair's header.
   */
  lemma {:induction false} PairLabelsOk(heads: seq<Path>, wavs: seq<Path>, labelOf: Path -> string, i: nat, acc: seq<string>)
    requires i <= |heads| && i <= |wavs|
    requires forall k :: i <= k < |heads| && k < |wavs| ==> SameStem(heads[k], wavs[k])
    ensures var n := if |heads| < |wavs| then |heads| else |wavs|;
      PairLabels(heads, wavs, labelOf, i, acc) == Ok(acc + ReadLabels(heads[i..n], labelOf))
    decreases |heads| - i
  {
    var n := if |heads| < |wavs| then |heads| else |wavs|;
    if i < n {
      var x := labelOf(heads[i]);
      var rest := ReadLabels(heads[i + 1..n], labelOf);
      assert PairLabels(heads, wavs, labelOf, i, acc) == PairLabels(heads, wavs, labelOf, i + 1, acc + [x]) by {
        assert SameStem(heads[i], wavs[i]);
      }
      assert PairLabels(heads, wavs, labelOf, i + 1, acc + [x]) == Ok((acc + [x]) + rest) by {
        PairLabelsOk(heads, wavs, labelOf, i + 1, acc + [x]);
      }
      assert ReadLabels(heads[i..n], labelOf) == [x] + rest by {
        ReadLabelsStep(heads, labelOf, i, n);
      }
      assert (acc + [x]) + rest == acc + ([x] + rest);
    } else {
      assert heads[i..n] == [];
      assert acc + ReadLabels(heads[i..n], labelOf) == acc;
    }
  }

  /** A failing `zip` loop fails on the first pair, from `i` on, that names different recordings. */
  lemma {:induction false} PairLabelsFirstMismatch(heads: seq<Path>, wavs: seq<Path>, labelOf: Path -> string, i: nat, acc: seq<string>)
    requires i <= |heads| && i <= |wavs|
    requires PairLabels(heads, wavs, labelOf, i, acc).Err?
    ensures exists k :: && i <= k < |heads| && k < |wavs| && !SameStem(heads[k], wavs[k])
                        && PairLabels(heads, wavs, labelOf, i, acc).error == NameMismatch(heads[k], wavs[k])
                        && forall j :: i <= j < k ==> SameStem(heads[j], wavs[j])
    decreases |heads| - i
  {
    var r := PairLabels(heads, wavs, labelOf, i, acc);
    if SameStem(heads[i], wavs[i]) {
      var acc' := acc + [labelOf(heads[i])];
      assert r == PairLabels(heads, wavs, labelOf, i + 1, acc');
      PairLabelsFirstMismatch(heads, wavs, labelOf, i + 1, acc');
    } else {
      assert r.error == NameMismatch(heads[i], wavs[i]);
    }
  }

  /** The gathered paths are exactly `root/folder/entry` for folder entries with the suffix. */
  lemma {:induction false} CollectFilesMembers(root: Path, folders: seq<Entry>, suffix: string)
    ensures forall p :: p in CollectFiles(root, folders, suffix) <==>
      exists f, e :: f in folders && e in f.listing && EndsWith(e, suffix) && p == root + [f.name] + [e]
  {
    if folders != [] {
      var init := folders[..|folders| - 1];
      CollectFilesMembers(root, init, suffix);
      ListedFilesMembers(root + [Last(folders).name], Last(folders).listing, suffix);
      assert forall f :: f in folders <==> f in init || f == Last(folders);
    }
  }

  /**
   * Each sorted list holds exactly the files of the `training-*` folders
   * whose names end in the suffix, each once per listing, in ascending path order.
   */
  lemma SortedFilesSpec(root: Path, entries: seq<Entry>, suffix: string)
    ensures var files := SortedFiles(root, entries, suffix);
      && Sorted(files, PathLe)
      && multiset(files) == multiset(CollectFiles(root, TrainingFolders(entries), suffix))
      && forall p :: p in files <==>
           exists f, e :: f in entries && StartsWith(f.name, TRAINING_PREFIX) && e in f.listing
             && EndsWith(e, suffix) && p == root + [f.name] + [e]
  {
    var collected := CollectFiles(root, TrainingFolders(entries), suffix);
    PathLeTotalOrder();
    SortedBySorted(collected, PathLe);
    CollectFilesMembers(root, TrainingFolders(entries), suffix);
    TrainingFoldersMembers(entries);
    var files := SortedFiles(root, entries, suffix);
    forall p ensures p in files <==> p in collected {
      assert p in files <==> p in multiset(files);
    }
  }

  lemma CincManifestSucceeds(root: Path, entries: seq<Entry>, read: Path -> string)
    ensures CincManifest(root, entries, read).Ok? <==>
      && FirstFile(TrainingFolders(entries)).None?
      && PairLabels(SortedFiles(root, entries, HEADER_SUFFIX), SortedFiles(root, entries, WAVE_SUFFIX),
                    HeaderReader(read), 0, []).Ok?
  {
  }

  /**
   * The manifest is written exactly when every `training-*` entry is a
   * directory and every zipped pair names the same recording.
   */
  lemma CincManifestOutcome(root: Path, entries: seq<Entry>, read: Path -> string)
    ensures var folders := TrainingFolders(entries);
      var heads := SortedFiles(root, entries, HEADER_SUFFIX);
      var wavs := SortedFiles(root, entries, WAVE_SUFFIX);
      CincManifest(root, entries, read).Ok? <==>
        && (forall k :: 0 <= k < |folders| ==> folders[k].isDir)
        && (forall k :: 0 <= k < |heads| && k < |wavs| ==> SameStem(heads[k], wavs[k]))
  {
    var folders := TrainingFolders(entries);
    FirstFileNone(folders);
    var heads := SortedFiles(root, entries, HEADER_SUFFIX);
    var wavs := SortedFiles(root, entries, WAVE_SUFFIX);
    PairLabelsSucceeds(heads, wavs, HeaderReader(read), 0, []);
    CincManifestSucceeds(root, entries, read);
  }

  /**
   * A written manifest has one row per waveform, in sorted order, whose
   * label is read from the header at the same position, or is empty past
   * the end of the header list.
   */
  lemma CincManifestRows(root: Path, entries: seq<Entry>, read: Path -> string)
    requires CincManifest(root, entries, read).Ok?
    ensures var heads := SortedFiles(root, entries, HEADER_SUFFIX);
      var wavs := SortedFiles(root, entries, WAVE_SUFFIX);
      var rows := CincManifest(root, entries, read).value;
      && |rows| == |wavs|
      && forall k :: 0 <= k < |wavs| ==>
           && rows[k].path == wavs[k]
           && rows[k].tag == if k < |heads| then Some(HeaderLabel(read(heads[k]))) else None
  {
    var heads := SortedFiles(root, entries, HEADER_SUFFIX);
    var wavs := SortedFiles(root, entries, WAVE_SUFFIX);
    var labelOf := HeaderReader(read);
    var n := if |heads| < |wavs| then |heads| else |wavs|;
    CincManifestSucceeds(root, entries, read);
    PairLabelsSucceeds(heads, wavs, labelOf, 0, []);
    PairLabelsOk(heads, wavs, labelOf, 0, []);
    var labels := PairLabels(heads, wavs, labelOf, 0, []).value;
    assert labels == ReadLabels(heads[..n], labelOf);
    var rows := CincManifest(root, entries, read).value;
    assert rows == ManifestRows(wavs, labels);
    forall k | 0 <= k < |wavs|
      ensures rows[k].tag == if k < |heads| then Some(HeaderLabel(read(heads[k]))) else None
    {
      if k < |heads| {
        ReadLabelsAt(heads[..n], labelOf, k);
        assert labels[k] == labelOf(heads[k]);
      }
    }
  }

  /** The `extend` loop over the training folders; a folder that is a file stops it. */
  method GatherFiles(root: Path, trainingFolders: seq<Entry>) returns (r: Result<(seq<Path>, seq<Path>), CincError>)
    ensures FirstFile(trainingFolders).Some? ==> r == Err(NotADirectory(FirstFile(trainingFolders).value.name))
    ensures FirstFile(trainingFolders).None? ==>
      r == Ok((CollectFiles(root, trainingFolders, HEADER_SUFFIX), CollectFiles(root, trainingFolders, WAVE_SUFFIX)))
  {
    var headPaths: seq<Path> := [];
    var wavPaths: seq<Path> := [];
    for i := 0 to |trainingFolders|
      invariant forall k :: 0 <= k < i ==> trainingFolders[k].isDir
      invariant headPaths == CollectFiles(root, trainingFolders[..i], HEADER_SUFFIX)
      invariant wavPaths == CollectFiles(root, trainingFolders[..i], WAVE_SUFFIX)
    {
      var folder := trainingFolders[i];
      if !folder.isDir {
        FirstFileAt(trainingFolders, i);
        return Err(NotADirectory(folder.name));
      }
      assert trainingFolders[..i + 1][..i] == trainingFolders[..i];
      headPaths := headPaths + FolderFiles(root, folder, HEADER_SUFFIX);
      wavPaths := wavPaths + FolderFiles(root, folder, WAVE_SUFFIX);
    }
    FirstFileNone(trainingFolders);
    assert trainingFolders[..|trainingFolders|] == trainingFolders;
    r := Ok((headPaths, wavPaths));
  }

  /** The `zip` loop: checks each pair and reads the header's label. */
  method PairUp(headPaths: seq<Path>, wavPaths: seq<Path>, labelOf: Path -> string) returns (r: Result<seq<string>, CincError>)
    ensures r == PairLabels(headPaths, wavPaths, labelOf, 0, [])
  {
    var labels: seq<string> := [];
    var n := if |headPaths| < |wavPaths| then |headPaths| else |wavPaths|;
    for i := 0 to n
      invariant |labels| == i
      invariant PairLabels(headPaths, wavPaths, labelOf, i, labels) == PairLabels(headPaths, wavPaths, labelOf, 0, [])
    {
      if !SameStem(headPaths[i], wavPaths[i]) {
        return Err(NameMismatch(headPaths[i], wavPaths[i]));
      }
      labels := labels + [labelOf(headPaths[i])];
    }
    r := Ok(labels);
  }

  /**
   * `create_cinc_manifest()`: gathers header and waveform paths folder by
   * folder, sorts both lists, then pairs them up and reads each header's label.
   */
  method CreateCincManifest(root: Path, entries: seq<Entry>, read: Path -> string) returns (r: Result<seq<Row>, CincError>)
    ensures r == CincManifest(root, entries, read)
  {
    var trainingFolders := TrainingFolders(entries);
    var gathered := GatherFiles(root, trainingFolders);
    if gathered.Err? {
      return Err(gathered.error);
    }
    var (headPaths, wavPaths) := gathered.value;
    headPaths := SortedBy(headPaths, PathLe);
    wavPaths := SortedBy(wavPaths, PathLe);
    var labels := PairUp(headPaths, wavPaths, HeaderReader(read));
    if labels.Err? {
      return Err(labels.error);
    }
    r := Ok(ManifestRows(wavPaths, labels.value));
  }
}
