/**
 * `create_hss_manifest` for the HSS 1.0 layout (`db == '1'`), without the
 * file system: the listing of `input/wav`, the combined train/devel label
 * table and the test label table are inputs, and the three manifests
 * (as tables whose rows are the CSV lines) are the result.
 */
module HssManifest {
  import opened Results
  import opened Strings
  import opened Ordering
  import opened Tables

  /** An entry of `input/wav`: its file name and its resolved path as a string. */
  datatype WavFile = WavFile(name: string, resolved: string)

  /** The phases, in the order the loop visits them. */
  const PHASES: seq<string> := ["train", "devel", "test"]

  const FILE_NAME: Column := Named("file_name")
  const TEST_COLUMNS: seq<string> := ["file_name", "label"]

  datatype ManifestError =
    | TrainLengthMismatch  // ValueError: fewer train/devel label rows than train files
    | DevelCountMismatch   // AssertionError: the remaining rows are not one per devel file
    | TestLengthMismatch   // ValueError: test label rows and test files differ in number
    | TestColumnMismatch   // ValueError: the test label table does not have exactly two columns

  datatype Manifests = Manifests(train: Table, val: Table, test: Table)

  /** `[str(p.resolve()) for p in wav_dir.iterdir() if phase in p.name]`, in listing order. */
  function PhaseFiles(wav: seq<WavFile>, phase: string): (files: seq<string>)
    ensures |files| <= |wav|
  {
    if wav == [] then []
    else
      var rest := PhaseFiles(wav[1..], phase);
      if Contains(wav[0].name, phase) then [wav[0].resolved] + rest else rest
  }

  /** A path is in a phase's list exactly when a listed entry whose name contains the phase resolves to it. */
  lemma {:induction false} PhaseFilesMembers(wav: seq<WavFile>, phase: string)
    ensures forall f :: f in PhaseFiles(wav, phase) <==>
      exists i :: 0 <= i < |wav| && Contains(wav[i].name, phase) && wav[i].resolved == f
  {
    if wav != [] {
      PhaseFilesMembers(wav[1..], phase);
      assert forall i :: 1 <= i < |wav| ==> wav[i] == wav[1..][i - 1];
    }
  }

  /**
   * The filter keeps listing order and multiplicity: filtering a listing
   * made of two parts filters each part in turn.
   */
  lemma {:induction false} PhaseFilesConcat(a: seq<WavFile>, b: seq<WavFile>, phase: string)
    ensures PhaseFiles(a + b, phase) == PhaseFiles(a, phase) + PhaseFiles(b, phase)
    decreases |a|
  {
    if a == [] {
      assert a + b == b;
    } else {
      var ab := a + b;
      assert ab[0] == a[0] && ab[1..] == a[1..] + b;
      PhaseFilesConcat(a[1..], b, phase);
    }
  }

  /** A single entry is kept exactly when its name contains the phase. */
  lemma PhaseFilesSingle(w: WavFile, phase: string)
    ensures PhaseFiles([w], phase) == if Contains(w.name, phase) then [w.resolved] else []
  {
    assert [w][1..] == [];
  }

  /** `dic[phase]` once sorted. */
  function SortedPhaseFiles(wav: seq<WavFile>, phase: string): seq<string> {
    SortedBy(PhaseFiles(wav, phase), StrLe)
  }

  /** What `create_hss_manifest` writes, or the exception that stops it. */
  function HssManifests(wav: seq<WavFile>, trainDev: Table, test: Table): Result<Manifests, ManifestError>
    requires WellFormed(trainDev) && WellFormed(test) && Headerless(test)
  {
    BuildManifests(SortedPhaseFiles(wav, "train"), SortedPhaseFiles(wav, "devel"),
                   SortedPhaseFiles(wav, "test"), trainDev, test)
  }

  /** The part of `create_hss_manifest` after the phase loop, given the three sorted file lists. */
  function BuildManifests(trainFiles: seq<string>, develFiles: seq<string>, testFiles: seq<string>,
                          trainDev: Table, test: Table): Result<Manifests, ManifestError>
    requires WellFormed(trainDev) && WellFormed(test) && Headerless(test)
  {
    var split := SplitTrainDevel(trainFiles, develFiles, trainDev);
    if split.Err? then Err(split.error)
    else
      var testOut := LabelTestTable(testFiles, test);
      if testOut.Err? then Err(testOut.error)
      else Ok(Manifests(split.value.0, split.value.1, testOut.value))
  }

  /** The train and val manifests: the combined table split by position, with the file columns set. */
  function SplitTrainDevel(trainFiles: seq<string>, develFiles: seq<string>, trainDev: Table)
    : Result<(Table, Table), ManifestError>
    requires WellFormed(trainDev)
  {
    var train := AssignColumn(Head(trainDev, |trainFiles|), FILE_NAME, trainFiles);
    if train.Err? then Err(TrainLengthMismatch)
    else
      var val := Tail(trainDev, |trainFiles|);
      if |val.rows| != |develFiles| then Err(DevelCountMismatch)
      else Ok((train.value, AssignColumn(val, FILE_NAME, develFiles).value))
  }

  /** The test manifest: the files put in column 0, then the columns renamed. */
  function LabelTestTable(testFiles: seq<string>, test: Table): Result<Table, ManifestError>
    requires WellFormed(test) && Headerless(test)
  {
    var testOut := AssignColumn(test, Position(0), testFiles);
    if testOut.Err? then Err(TestLengthMismatch)
    else
      var relabelled := Relabel(testOut.value, TEST_COLUMNS);
      if relabelled.Err? then Err(TestColumnMismatch)
      else Ok(relabelled.value)
  }

  /**
   * `create_hss_manifest()`: the phase loop fills `dic`, then the label
   * tables are split by position and given their file columns.
   */
  method CreateHssManifest(wav: seq<WavFile>, trainDev: Table, test: Table) returns (r: Result<Manifests, ManifestError>)
    requires WellFormed(trainDev) && WellFormed(test) && Headerless(test)
    ensures r == HssManifests(wav, trainDev, test)
  {
    var dic := PhaseLists(wav);
    assert PHASES == ["train", "devel", "test"];
    var trainFiles, develFiles, testFiles := dic["train"], dic["devel"], dic["test"];
    assert trainFiles == SortedPhaseFiles(wav, "train");
    assert develFiles == SortedPhaseFiles(wav, "devel");
    assert testFiles == SortedPhaseFiles(wav, "test");
    r := BuildManifests(trainFiles, develFiles, testFiles, trainDev, test);
  }

  /** The phase loop: `dic[phase]` is the sorted list of that phase's files, for each phase. */
  method PhaseLists(wav: seq<WavFile>) returns (dic: map<string, seq<string>>)
    ensures forall phase :: phase in PHASES ==> phase in dic && dic[phase] == SortedPhaseFiles(wav, phase)
  {
    assert PHASES[0] == "train" && PHASES[1] == "devel" && PHASES[2] == "test";
    dic := map[];
    for p := 0 to |PHASES|
      invariant forall q :: 0 <= q < p ==> PHASES[q] in dic && dic[PHASES[q]] == SortedPhaseFiles(wav, PHASES[q])
    {
      var phase := PHASES[p];
      var files := PhaseFiles(wav, phase);
      files := SortedBy(files, StrLe);
      dic := dic[phase := files];
    }
  }

  /**
   * Each phase's file list holds exactly the resolved paths of the entries
   * whose name contains the phase, each as often as listed, in ascending
   * string order.
   */
  lemma PhaseFilesSorted(wav: seq<WavFile>, phase: string)
    ensures var files := SortedPhaseFiles(wav, phase);
      && Sorted(files, StrLe)
      && multiset(files) == multiset(PhaseFiles(wav, phase))
      && forall f :: f in files <==>
           exists i :: 0 <= i < |wav| && Contains(wav[i].name, phase) && wav[i].resolved == f
  {
    StrLeTotalOrder();
    PhaseFilesMembers(wav, phase);
    SortedBySorted(PhaseFiles(wav, phase), StrLe);
    var files := SortedPhaseFiles(wav, phase);
    forall f ensures f in files <==> f in PhaseFiles(wav, phase) {
      assert f in files <==> f in multiset(files);
    }
  }

  /**
   * The builder succeeds exactly when the combined table fits the train and
   * devel files and the test table fits the test files and has two columns;
   * otherwise it stops at the first check that fails, in source order. A
   * table fits a list when it has one row per entry, or no rows at all,
   * since assigning a list to an empty frame builds its rows from the list.
   * So a header-only train/devel table passes with no devel files, and
   * `train` gets one row per train file.
   */
  lemma HssManifestsOutcome(trainFiles: seq<string>, develFiles: seq<string>, testFiles: seq<string>,
                            trainDev: Table, test: Table)
    requires WellFormed(trainDev) && WellFormed(test) && Headerless(test)
    ensures var nTrain, nDevel, nTest := |trainFiles|, |develFiles|, |testFiles|;
      var rows := |trainDev.rows|;
      var splitFits := rows == nTrain + nDevel || (rows == 0 && nDevel == 0);
      var testFits := |test.rows| == nTest || |test.rows| == 0;
      var r := BuildManifests(trainFiles, develFiles, testFiles, trainDev, test);
      && (r == Err(TrainLengthMismatch) <==> 0 < rows < nTrain)
      && (r == Err(DevelCountMismatch) <==> nTrain <= rows != nTrain + nDevel || (rows == 0 && nDevel != 0))
      && (r == Err(TestLengthMismatch) <==> splitFits && 0 < |test.rows| != nTest)
      && (r == Err(TestColumnMismatch) <==> splitFits && testFits && |test.columns| != 2)
      && (r.Ok? <==> splitFits && testFits && |test.columns| == 2)
  {
    SplitOutcome(trainFiles, develFiles, trainDev);
    TestTableOutcome(testFiles, test);
    var split := SplitTrainDevel(trainFiles, develFiles, trainDev);
    var r := BuildManifests(trainFiles, develFiles, testFiles, trainDev, test);
    if split.Err? {
      assert r == Err(split.error);
    } else {
      assert r.Ok? <==> LabelTestTable(testFiles, test).Ok?;
      assert r.Err? ==> r.error == LabelTestTable(testFiles, test).error;
    }
  }

  lemma SplitOutcome(trainFiles: seq<string>, develFiles: seq<string>, trainDev: Table)
    requires WellFormed(trainDev)
    ensures var nTrain, nDevel, rows := |trainFiles|, |develFiles|, |trainDev.rows|;
      var r := SplitTrainDevel(trainFiles, develFiles, trainDev);
      && (r == Err(TrainLengthMismatch) <==> 0 < rows < nTrain)
      && (r == Err(DevelCountMismatch) <==> nTrain <= rows != nTrain + nDevel || (rows == 0 && nDevel != 0))
      && (r.Ok? <==> rows == nTrain + nDevel || (rows == 0 && nDevel == 0))
  {
  }

  lemma TestTableOutcome(testFiles: seq<string>, test: Table)
    requires WellFormed(test) && Headerless(test)
    ensures var r := LabelTestTable(testFiles, test);
      var fits := |test.rows| == |testFiles| || |test.rows| == 0;
      && (r == Err(TestLengthMismatch) <==> 0 < |test.rows| != |testFiles|)
      && (r == Err(TestColumnMismatch) <==> fits && |test.columns| != 2)
      && (r.Ok? <==> fits && |test.columns| == 2)
  {
    if |test.columns| > 0 {
      assert test.columns[0] == Position(0);
    }
  }

  /**
   * On success the combined table is split by position: the train manifest
   * is its first `len(train files)` rows and the val manifest all the rest,
   * every other column carried over unchanged, with the sorted file lists
   * in the `file_name` column. A header-only table is not split: the train
   * manifest is built from the train files alone, its other columns missing,
   * and the val manifest is empty, so the manifests then hold more rows
   * than the table.
   */
  lemma HssManifestsSplit(trainFiles: seq<string>, develFiles: seq<string>, trainDev: Table)
    requires WellFormed(trainDev)
    requires SplitTrainDevel(trainFiles, develFiles, trainDev).Ok?
    ensures var (train, val) := SplitTrainDevel(trainFiles, develFiles, trainDev).value;
      var n := |trainFiles|;
      && WellFormed(train) && WellFormed(val)
      && |train.rows| == n && |val.rows| == |develFiles|
      && FILE_NAME in train.columns && ColumnValues(train, FILE_NAME) == trainFiles
      && FILE_NAME in val.columns && ColumnValues(val, FILE_NAME) == develFiles
      && (|trainDev.rows| > 0 ==>
            && |train.rows| + |val.rows| == |trainDev.rows|
            && forall d :: d in trainDev.columns && d != FILE_NAME ==>
                 && d in train.columns && d in val.columns
                 && ColumnValues(train, d) == ColumnValues(trainDev, d)[..n]
                 && ColumnValues(val, d) == ColumnValues(trainDev, d)[n..])
      && (|trainDev.rows| == 0 ==>
            && develFiles == []
            && forall d :: d in trainDev.columns && d != FILE_NAME ==>
                 d in train.columns && ColumnValues(train, d) == seq(n, _ => MISSING))
  {
    var (train, val) := SplitTrainDevel(trainFiles, develFiles, trainDev).value;
    var n := |trainFiles|;
    var head := Head(trainDev, n);
    var tail := Tail(trainDev, n);
    assert train == AssignColumn(head, FILE_NAME, trainFiles).value;
    assert val == AssignColumn(tail, FILE_NAME, develFiles).value;
    if |trainDev.rows| > 0 {
      forall d | d in trainDev.columns && d != FILE_NAME
        ensures ColumnValues(train, d) == ColumnValues(trainDev, d)[..n]
        ensures ColumnValues(val, d) == ColumnValues(trainDev, d)[n..]
      {
        HeadColumn(trainDev, n, d);
        TailColumn(trainDev, n, d);
        AssignColumnKeeps(head, FILE_NAME, trainFiles, d);
        AssignColumnKeeps(tail, FILE_NAME, develFiles, d);
      }
    } else {
      forall d | d in trainDev.columns && d != FILE_NAME
        ensures ColumnValues(train, d) == seq(n, _ => MISSING)
      {
        AssignColumnOnEmpty(head, FILE_NAME, trainFiles, d);
      }
    }
  }

  /**
   * On success the test manifest has the columns `file_name` and `label`:
   * the sorted test files, and the second column of the test label table
   * (missing throughout when that table has no rows).
   */
  lemma HssManifestsTest(testFiles: seq<string>, test: Table)
    requires WellFormed(test) && Headerless(test)
    requires LabelTestTable(testFiles, test).Ok?
    ensures var m := LabelTestTable(testFiles, test).value;
      && WellFormed(m) && |m.rows| == |testFiles|
      && m.columns == [Named("file_name"), Named("label")]
      && ColumnValues(m, Named("file_name")) == testFiles
      && Position(1) in test.columns
      && (|test.rows| > 0 ==> ColumnValues(m, Named("label")) == ColumnValues(test, Position(1)))
      && (|test.rows| == 0 ==> ColumnValues(m, Named("label")) == seq(|testFiles|, _ => MISSING))
  {
    TestTableOutcome(testFiles, test);
    assert test.columns[0] == Position(0) && test.columns[1] == Position(1);
    var m := LabelTestTable(testFiles, test).value;
    var testOut := AssignColumn(test, Position(0), testFiles).value;
    assert m == Relabel(testOut, TEST_COLUMNS).value;
    RelabelColumn(testOut, TEST_COLUMNS, 0);
    RelabelColumn(testOut, TEST_COLUMNS, 1);
    if |test.rows| > 0 {
      AssignColumnKeeps(test, Position(0), testFiles, Position(1));
    } else {
      AssignColumnOnEmpty(test, Position(0), testFiles, Position(1));
    }
    assert m.columns[0] == Named(TEST_COLUMNS[0]) && m.columns[1] == Named(TEST_COLUMNS[1]);
  }
}
