# heart-sound-machine experiment driver, modelled in Dafny

This project models the data preparation and bookkeeping in
`tasks/experiment.py` of heart-sound-machine, a heart-sound classification
experiment driver. It covers:

- **Audio loading** (`set_load_func` / `load_func`). A decoded waveform is
  forced to exactly `sr * one_audio_sec` samples and returned as a single row.
  - A longer wave is truncated.
  - A shorter wave is zero-padded on both sides by `(T - len) // 2 + 1` and
    then cut to `T`.
- **Label functions**:
  - `hss_label_func` returns field 1 of a manifest row.
  - `cinc_label_func` maps `Normal`/`Abnormal` to 0/1.
- **HSS 1.0 manifests** (`create_hss_manifest`, `db == '1'`).
  - The `input/wav` listing is split by phase name (`train`, `devel`, `test`).
    Each list is sorted by Python string order.
  - The combined train/devel label table is split by position into the train
    and val manifests, each with its `file_name` column set.
  - The test label table gets its column 0 replaced and its columns renamed.
  - A label table with no rows takes its rows from the file list. pandas
    rebuilds the index of an empty frame on column assignment and leaves the
    other columns NaN. So a header-only `labels_train_dev.tsv` with no devel
    files passes, and the train manifest gets one row per train file with
    missing labels. The manifests then hold more rows than the label table.
  - Every pandas `ValueError` and the `assert` are modelled as errors, in
    source order.
- **PhysioNet/CinC 2016 manifest** (`create_cinc_manifest`).
  - Header and waveform paths are gathered from the `training-*` folders.
  - Both lists are sorted by `pathlib` order, which compares paths part by
    part.
  - The lists are zipped. Each pair must name the same recording.
  - Each label is the header text after the last `"# "`, with newlines
    removed.
  - The manifest has one row per waveform. The label is empty past the end
    of the header list.
- **The experiment grid** of the entry point. For each model and each
  learning rate, one validation mean and one mean per test metric are added
  to the result lists, in model-major, learning-rate-minor order.
  - For the HSS source the loop calls `.append` on a dict, so the first cell
    raises `AttributeError`. This is modelled as that error, not as working
    behaviour.

Python semantics the code relies on are written out:

- Strings:
  - `in` on strings;
  - `split(sep)[-1]`;
  - `replace('\n', '')`;
  - `s[:-4]`;
  - `s[:n]` clamping.
- Ordering:
  - `str` and `PurePosixPath` ordering;
  - `list.sort()`, as the unique ascending permutation.
- pandas:
  - `iloc` row slices;
  - column assignment, which replaces or appends a column, raises on a
    length mismatch, and gives a frame with no rows one row per value;
  - `columns = [...]`.

Files, one module each:

- `results.dfy`: `Result`/`Option`.
- `strings.dfy`.
- `ordering.dfy`.
- `audio_loader.dfy`.
- `labels.dfy`.
- `table.dfy`: module `Tables`.
- `hss_manifest.dfy`.
- `cinc_manifest.dfy`.
- `grid.dfy`.

## Model

| member | source | states |
|---|---|---|
| AudioLoader.FixLength | tasks/experiment.py:45-49 | whatever the wave's length, the shaped wave has exactly `const_length` samples |
| AudioLoader.LoadFunc | tasks/experiment.py:41-52 | a decode failure propagates unchanged (both directions); on success the result is one row of exactly `sr * one_audio_sec` samples, the length-fixed wave |
| AudioLoader.FixLengthTruncates | tasks/experiment.py:45-46 | a wave at least `const_length` long becomes its first `const_length` samples, in order; one of exactly that length is unchanged |
| AudioLoader.FixLengthPads | tasks/experiment.py:47-49 | a shorter wave is `n_pad` zeros, then every sample of the wave in order, then zeros up to `const_length`; `n_pad + len <= const_length`, so no sample is cut |
| AudioLoader.PadOffCentre | tasks/experiment.py:48-49 | the padding is not centred: the leading zeros outnumber the trailing ones by 1 when `const_length - len` is odd, by 2 when it is even |
| AudioLoader.HssClipLength | tasks/experiment.py:127-128 | with the single-split runner's rate and duration, `load_func` turns every decoded wave into one row of exactly 40000 samples |
| AudioLoader.CincClipLength | tasks/experiment.py:163-164 | with the cross-validation runner's rate and duration, `load_func` turns every decoded wave into one row of exactly 120000 samples |
| AudioLoader.Pad | tasks/experiment.py:49 | `np.pad(s, n)` is `n` zeros, then `s` unchanged, then `n` zeros |
| Labels.HssLabel | tasks/experiment.py:32-33 | the label is field 1 of the row exactly when the row has a field 1; otherwise `IndexError` |
| Labels.CincLabel | tasks/experiment.py:36-38 | 0 exactly for `Normal`, 1 exactly for `Abnormal`, `KeyError` carrying the word for any other word, `IndexError` for a row without field 1 |
| Labels.CincLabelRoundTrip | tasks/experiment.py:37 | the vocabulary is a bijection: the class of a word maps back to that word, and a class's word maps to that class |
| Strings.ContainsIffOccurs | tasks/experiment.py:63 | `sub in s` holds exactly when `sub` occurs at some index of `s` (both directions) |
| Strings.Split | tasks/experiment.py:111 | `s.split(sep)` always yields at least one piece, and the last piece is no longer than `s` |
| Strings.SplitPiecesFree | tasks/experiment.py:111 | no piece of `s.split(sep)` contains `sep` |
| Strings.JoinSplit | tasks/experiment.py:111 | joining the pieces of `s.split(sep)` with `sep` gives back `s`: the split loses nothing |
| Strings.LastPieceAfterLastSeparator | tasks/experiment.py:111 | `s.split(sep)[-1]` is a suffix of `s` with no `sep` in it, preceded by `sep` unless it is all of `s`; it is all of `s` exactly when `sep` is not in `s`, which is exactly when the split has one piece |
| Strings.RemoveAll | tasks/experiment.py:111 | `replace(c, '')` leaves no `c` and never lengthens the text |
| Strings.RemoveAllCounts | tasks/experiment.py:111 | `replace(c, '')` keeps every other character exactly as often as before |
| Strings.RemoveAllConcat | tasks/experiment.py:111 | removing `c` from `a + b` gives the removal from `a` followed by the removal from `b`, so the kept characters stay in order |
| Strings.RemoveAllSingle | tasks/experiment.py:111 | a single character is dropped exactly when it is `c` |
| Strings.DropLast | tasks/experiment.py:109 | `s[:-k]` is `k` characters shorter than `s`, or empty when `s` has fewer than `k` |
| Strings.DropLastRejoin | tasks/experiment.py:109 | `s[:-k]` followed by the last `k` characters of `s` gives back `s` |
| Strings.RemoveAllAbsent | tasks/experiment.py:111 | text without `c` is unchanged by removing `c` (order kept) |
| Ordering.StrLeTotalOrder | tasks/experiment.py:64 | Python's `str` order (lexicographic by code point) is a total order |
| Ordering.PathLeTotalOrder | tasks/experiment.py:104-105 | path order (lexicographic over the list of parts, each compared as `str`) is a total order |
| Ordering.SortedBySorted | tasks/experiment.py:64 | the modelled `list.sort()` result is in ascending order |
| Ordering.SortedByIsTheSort | tasks/experiment.py:104-105 | under a total order, any ascending permutation of a list equals the modelled `list.sort()` result, so the model of the sort is exact |
| Tables.Head | tasks/experiment.py:69 | `iloc[:n, :]` keeps the columns and the first `min(n, rows)` rows, in order |
| Tables.Tail | tasks/experiment.py:74 | `iloc[n:, :]` keeps the columns and the rows from position `n` on (none when there are fewer) |
| Tables.AssignColumn | tasks/experiment.py:70 | assigning a list succeeds exactly when its length is the row count or the frame has no rows; the result has one row per value, the column is replaced if present and appended otherwise, and it then holds exactly the list |
| Tables.AssignColumnOnEmpty | tasks/experiment.py:70 | on a frame with no rows, every other column holds a missing value in each of the new rows |
| Tables.AssignColumnKeeps | tasks/experiment.py:80 | assigning one column leaves every other column's values as they were |
| Tables.Relabel | tasks/experiment.py:81 | `columns = names` succeeds exactly when there are as many names as columns; rows are unchanged and column `i` is named `names[i]` |
| Tables.RelabelColumn | tasks/experiment.py:81 | after relabelling, the column named `names[i]` holds what column `i` held |
| HssManifest.PhaseFilesMembers | tasks/experiment.py:63 | a path is in a phase's list exactly when some listed entry's name contains the phase and resolves to it |
| HssManifest.PhaseFilesConcat | tasks/experiment.py:63 | filtering a listing made of two parts gives the first part's matches, then the second part's, so listing order and repeats are kept |
| HssManifest.PhaseFilesSingle | tasks/experiment.py:63 | one entry is kept, as its resolved path, exactly when its name contains the phase |
| HssManifest.PhaseLists | tasks/experiment.py:62-64 | after the phase loop, `dic[phase]` is the sorted list of the phase's files for each of the three phases |
| HssManifest.PhaseFilesSorted | tasks/experiment.py:62-64 | each phase list is ascending in `str` order and is a permutation of the matching paths, with the same membership |
| HssManifest.CreateHssManifest | tasks/experiment.py:60-83 | the phase loop and the table steps produce exactly the specified manifests or error |
| HssManifest.HssManifestsOutcome | tasks/experiment.py:69-81 | each error occurs exactly under its condition, checked in source order: some but too few train/devel rows, wrong devel count, wrong test row count (an empty test table fits any count), test table not two columns; success exactly when none applies |
| HssManifest.SplitOutcome | tasks/experiment.py:69-75 | the split fails with the `ValueError` exactly when the table has some rows but fewer than the train files, and with the `AssertionError` exactly when the rows left over are not one per devel file |
| HssManifest.TestTableOutcome | tasks/experiment.py:80-81 | the test table step fails on a row count mismatch first (a table with no rows takes the files' count), then on a column count other than two, and succeeds otherwise |
| HssManifest.HssManifestsSplit | tasks/experiment.py:69-76 | `file_name` holds the sorted train and devel files; for a table with rows, the train manifest is its first `len(train files)` rows and the val manifest the rest, every other column carried over by position; for a header-only table there are no devel files, and the train manifest's other columns are missing throughout |
| HssManifest.HssManifestsTest | tasks/experiment.py:80-81 | the test manifest has columns `file_name` and `label`, holding the sorted test files and the label table's column 1 (missing throughout when that table has no rows) |
| CincManifest.SameRecording | tasks/experiment.py:109 | for a header `<stem>.hea` and a wave ending in `.wav`, `head.name[:-4] == wav.name[:-4]` holds exactly when the wave is `<stem>.wav` |
| CincManifest.TrainingFoldersMembers | tasks/experiment.py:100 | an entry is kept exactly when it is listed and its name starts with `training-` |
| CincManifest.TrainingFoldersConcat | tasks/experiment.py:100 | filtering a listing made of two parts gives the first part's folders, then the second part's, so listing order and repeats are kept |
| CincManifest.TrainingFoldersSingle | tasks/experiment.py:100 | one entry is kept exactly when its name starts with `training-` |
| CincManifest.ListedFilesMembers | tasks/experiment.py:102-103 | a path is listed exactly when a folder entry ends with the suffix and the path is that entry under the folder |
| CincManifest.ListedFilesConcat | tasks/experiment.py:102-103 | filtering a folder listing made of two parts gives the first part's files, then the second part's, so listing order and repeats are kept |
| CincManifest.ListedFilesSingle | tasks/experiment.py:102-103 | one name is kept, under the folder, exactly when it ends with the suffix |
| CincManifest.FirstFileAt | tasks/experiment.py:101-102 | the gathering stops at the first `training-*` entry that is not a directory |
| CincManifest.FirstFileNone | tasks/experiment.py:101-103 | gathering meets no file exactly when every `training-*` entry is a directory |
| CincManifest.CollectFilesMembers | tasks/experiment.py:101-103 | a path is gathered exactly when it is `root/folder/entry` for a training folder and an entry with the suffix |
| CincManifest.SortedFilesSpec | tasks/experiment.py:100-105 | each sorted list is ascending in path order, a permutation of what the `extend` loop gathered, and holds exactly the `root/folder/entry` paths of `training-*` folders whose entry ends in the suffix |
| CincManifest.HeaderLabel | tasks/experiment.py:111 | the extracted label never contains a newline |
| CincManifest.HeaderLabelWithoutMarker | tasks/experiment.py:111 | a header without `"# "` yields its whole text minus newlines |
| CincManifest.HeaderLabelAfterLastMarker | tasks/experiment.py:111 | for header text `pre + "# " + tail` where `tail` has no `"# "`, the label is `tail` minus newlines, whatever `pre` is |
| CincManifest.PairLabelsSucceeds | tasks/experiment.py:108-109 | the zip loop succeeds exactly when every pair, up to the shorter list's end, names the same recording (`name[:-4]` equal) |
| CincManifest.PairLabelsOk | tasks/experiment.py:108-111 | when it succeeds, the loop yields one label per pair, the label read from that pair's header, in order |
| CincManifest.PairLabelsFirstMismatch | tasks/experiment.py:108-109 | a failing loop reports the first mismatching pair; all earlier pairs match |
| CincManifest.CincManifestOutcome | tasks/experiment.py:98-113 | the manifest is produced exactly when every `training-*` entry is a directory and every zipped pair names the same recording |
| CincManifest.ManifestRows | tasks/experiment.py:113 | the transposed frame has one row per wave path, in order; row `k` has a label exactly when `k` is below the number of labels, and then it is label `k` |
| CincManifest.CincManifestRows | tasks/experiment.py:107-113 | a produced manifest has one row per sorted waveform path; row `k`'s label is read from sorted header `k`, or is empty when there are fewer headers |
| CincManifest.GatherFiles | tasks/experiment.py:101-103 | the `extend` loop fails with the first non-directory folder, and otherwise collects every folder's headers and waves, folder by folder |
| CincManifest.PairUp | tasks/experiment.py:107-111 | the `zip` loop computes the specified pairing, stopping at the first mismatch |
| CincManifest.CreateCincManifest | tasks/experiment.py:98-113 | gathering, sorting and pairing produce exactly the specified manifest or error |
| Grid.RunGrid | tasks/experiment.py:235-269 | the grid loops produce the specified result lists and configuration, or for HSS the error raised in the first cell |
| Grid.RunRow | tasks/experiment.py:250-269 | one model's row extends every result list by one entry per learning rate, in order, and leaves `lr` at the last rate; for HSS the first cell raises, with `seed` set to 0 |
| Grid.RunCell | tasks/experiment.py:252-263 | a CinC cell records its validation UAR and one mean per test metric; any other source records nothing |
| Grid.MeanOf | tasks/experiment.py:267-269 | the mean of a cell's list is NaN when the list is empty and its one value otherwise |
| Grid.RecordCell | tasks/experiment.py:267-269 | the cell's means extend `val_results` and each metric's list in `results` by exactly one entry |
| Grid.GridCellsSize | tasks/experiment.py:237-250 | the grid has `len(models) * len(lrs)` cells |
| Grid.GridCellsAt | tasks/experiment.py:237-251 | cell `k` pairs model `k // len(lrs)` with learning rate `k % len(lrs)`: model-major, rate-minor |
| Grid.GridCellsMembers | tasks/experiment.py:237-251 | a (model, rate) pair is a cell exactly when the model and the rate are both tried |
| Grid.MainGrid | tasks/experiment.py:235-269 | with the five models and two rates, a CinC run records 10 entries in `val_results` and in each of the four metric lists, and ends with `resnext` at rate 0.00001 |
| Grid.HssGridFails | tasks/experiment.py:255-258 | an HSS run stops in its first cell (`vgg16`, rate 0.0001, seed 0) with the `AttributeError` |

## Left out

- Decoding audio (`librosa.load`) is a foreign call. `LoadFunc` takes the
  decode outcome, a wave or an error, as its input.
- The model does no file-system I/O. The model takes these as inputs:
  - directory listings, as lists of entries;
  - `Path.resolve()` results, given as each entry's resolved path in HSS,
    with no symlink resolution in CinC;
  - header file contents, as a function from path to text;
  - the label tables `read_csv` would produce.
- Manifests are tables or rows, not CSV text.
- Partial writes are not modelled. When `create_hss_manifest` fails after
  writing the train manifest, the file already on disk is not represented.
- `hss_experiment`, `cv_experiment`, `TrainManager`, the preprocessor, the
  metrics and Grad-CAM are calls into code outside this model. A recorded
  score is named by its cell and metric instead of being computed.
- Floating-point means are not computed. Only the count, order and origin of
  each recorded mean are modelled. A mean of an empty list is NaN.
- The `db == '1.5'` branch of `create_hss_manifest` is unreachable, because
  `db` is fixed to `'1'`.
- Argument parsing and the `--gradcam` path are not modelled.
- `print` output is not modelled.
- The grid also accepts a data source other than HSS and CinC. The argument
  parser forbids one, so this branch, which records NaN for every cell, does
  not arise in a real run.
- `AudioLoader.LoadFunc`: sample rate and duration are natural numbers. The
  source never passes negative ones.
- The sample values of `load_func` are generic, with a caller-supplied zero.
  NumPy dtypes are not modelled.
- `Tables.AssignColumn`: a NaN cell is modelled as the empty field `to_csv`
  writes for it, so it is not told apart from an empty string read from a
  label table.
- pandas index labels are not modelled:
  - `iloc` is modelled by position only;
  - the row index written with `index=False` is dropped;
  - pandas' `SettingWithCopyWarning` on assigning into an `iloc` slice is a
    warning, not a behaviour.
