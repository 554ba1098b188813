/**
 * The experiment grid of the script's entry point: every model is trained
 * with every learning rate, and each (model, learning rate) cell adds one
 * validation score and one test score per metric to the result lists.
 * The experiments themselves are not modelled: a score is named by the
 * cell and metric it was measured for.
 */
module Grid {
  import opened Results

  /** The models of the grid, in the order they are tried. */
  const MODELS: seq<string> := ["vgg16", "vgg19", "resnet", "mobilenet", "resnext"]

  /** The learning rates tried for each model. */
  const LEARNING_RATES: seq<real> := [0.0001, 0.00001]

  /** The test metrics whose means are collected. */
  const TEST_METRIC_NAMES: seq<string> := ["uar", "recall_1", "specificity", "f1"]

  /** `train_conf['data_source']`. */
  datatype Source = HSS | CinC | Other(name: string)

  /** The entries of `train_conf` the grid writes. */
  datatype Config = Config(modelType: string, lr: real, seed: int)

  /** One point of the grid. */
  datatype Cell = Cell(model: string, lr: real)

  /**
   * A recorded mean: the validation UAR or a test metric of the
   * cross-validated experiment run for a cell, or the NaN that the mean of
   * an empty list gives when no experiment ran.
   */
  datatype Score = ValMean(cell: Cell) | TestMean(cell: Cell, metric: string) | NotANumber

  /** `uar_res.append(...)` on the dict `uar_res` raises AttributeError. */
  datatype GridError = AppendOnDict(conf: Config)

  datatype Outcome = Outcome(results: map<string, seq<Score>>, valResults: seq<Score>, conf: Config)

  /** The cells for model `m`, one per learning rate, in order. */
  function RowCells(m: string, lrs: seq<real>): (cells: seq<Cell>)
    ensures |cells| == |lrs|
    ensures forall j :: 0 <= j < |lrs| ==> cells[j] == Cell(m, lrs[j])
  {
    seq(|lrs|, j requires 0 <= j < |lrs| => Cell(m, lrs[j]))
  }

  /** The cells in the order the nested loops visit them. */
  function GridCells(models: seq<string>, lrs: seq<real>): seq<Cell> {
    if models == [] then []
    else GridCells(models[..|models| - 1], lrs) + RowCells(models[|models| - 1], lrs)
  }

  /** The validation mean recorded for a cell. */
  function ValScore(source: Source, c: Cell): Score {
    if source == CinC then ValMean(c) else NotANumber
  }

  /** The mean of `metric` recorded for a cell. */
  function TestScore(source: Source, c: Cell, metric: string): Score {
    if source == CinC then TestMean(c, metric) else NotANumber
  }

  function ValScores(source: Source, cells: seq<Cell>): seq<Score> {
    seq(|cells|, k requires 0 <= k < |cells| => ValScore(source, cells[k]))
  }

  function TestScores(source: Source, cells: seq<Cell>, metric: string): seq<Score> {
    seq(|cells|, k requires 0 <= k < |cells| => TestScore(source, cells[k], metric))
  }

  /** `train_conf` after the loops ran to the end. */
  function FinalConfig(conf: Config, models: seq<string>, lrs: seq<real>): Config {
    if models == [] then conf
    else if lrs == [] then conf.(modelType := models[|models| - 1])
    else conf.(modelType := models[|models| - 1], lr := lrs[|lrs| - 1])
  }

  /**
   * What the loops leave behind: for the HSS source, the AttributeError
   * raised in the first cell once `seed` is 0; otherwise one score per cell
   * in every list.
   */
  function RunGridSpec(source: Source, conf: Config, models: seq<string>, lrs: seq<real>): Result<Outcome, GridError> {
    if source == HSS && models != [] && lrs != [] then
      Err(AppendOnDict(conf.(modelType := models[0], lr := lrs[0], seed := 0)))
    else
      var cells := GridCells(models, lrs);
      Ok(Outcome(map n | n in TEST_METRIC_NAMES :: TestScores(source, cells, n),
                 ValScores(source, cells), FinalConfig(conf, models, lrs)))
  }

  /** `np.array(s).mean()` for the lists the grid builds: NaN when empty, the one value otherwise. */
  function MeanOf(s: seq<Score>): (m: Score)
    requires |s| <= 1
    ensures s == [] ==> m == NotANumber
    ensures |s| == 1 ==> m == s[0]
  {
    if s == [] then NotANumber else s[0]
  }

  /** The per-metric lists `results` holds once `cells` are done. */
  function TestTable(source: Source, cells: seq<Cell>): map<string, seq<Score>> {
    map n | n in TEST_METRIC_NAMES :: TestScores(source, cells, n)
  }

  /** `uar_res` of one cell after its metric loop has handled the first `q` names. */
  function CellResults(source: Source, c: Cell, q: nat): map<string, seq<Score>>
    requires q <= |TEST_METRIC_NAMES|
  {
    map n | n in TEST_METRIC_NAMES ::
      if source == CinC && n in TEST_METRIC_NAMES[..q] then [TestMean(c, n)] else []
  }

  /** `results` after the metric loop of cell `c` has handled the first `q` names. */
  function PartTable(source: Source, cells: seq<Cell>, c: Cell, q: nat): map<string, seq<Score>>
    requires q <= |TEST_METRIC_NAMES|
  {
    map n | n in TEST_METRIC_NAMES ::
      TestScores(source, cells, n) + (if n in TEST_METRIC_NAMES[..q] then [TestScore(source, c, n)] else [])
  }

  /** The body of the `__main__` grid: the loop over models, each running its row of learning rates. */
  method RunGrid(source: Source, conf: Config, models: seq<string>, lrs: seq<real>) returns (r: Result<Outcome, GridError>)
    ensures r == RunGridSpec(source, conf, models, lrs)
  {
    var trainConf := conf;
    var results: map<string, seq<Score>> := map n | n in TEST_METRIC_NAMES :: [];
    var valResults: seq<Score> := [];
    assert models[..0] == [];
    assert forall n :: TestScores(source, [], n) == [];
    assert results == TestTable(source, []);
    for i := 0 to |models|
      invariant source == HSS && i > 0 ==> lrs == []
      invariant trainConf == FinalConfig(conf, models[..i], lrs)
      invariant valResults == ValScores(source, GridCells(models[..i], lrs))
      invariant results == TestTable(source, GridCells(models[..i], lrs))
    {
      assert models[..i + 1][..i] == models[..i];
      assert GridCells(models[..i + 1], lrs) == GridCells(models[..i], lrs) + RowCells(models[i], lrs);
      trainConf := trainConf.(modelType := models[i]);
      var row := RunRow(source, trainConf, lrs, GridCells(models[..i], lrs), results, valResults);
      if row.Err? {
        assert i == 0 && source == HSS;
        return Err(row.error);
      }
      results, valResults, trainConf := row.value.results, row.value.valResults, row.value.conf;
    }
    assert models[..|models|] == models;
    r := Ok(Outcome(results, valResults, trainConf));
  }

  /**
   * One model's row: the loop over the learning rates, after the cells
   * `done` of the earlier models. For HSS the first cell raises.
   */
  method RunRow(source: Source, conf: Config, lrs: seq<real>, ghost done: seq<Cell>,
                results: map<string, seq<Score>>, valResults: seq<Score>) returns (r: Result<Outcome, GridError>)
    requires results == TestTable(source, done) && valResults == ValScores(source, done)
    ensures source == HSS && lrs != [] ==> r == Err(AppendOnDict(conf.(lr := lrs[0], seed := 0)))
    ensures !(source == HSS && lrs != []) ==>
      && r.Ok?
      && r.value.results == TestTable(source, done + RowCells(conf.modelType, lrs))
      && r.value.valResults == ValScores(source, done + RowCells(conf.modelType, lrs))
      && r.value.conf == if lrs == [] then conf else conf.(lr := lrs[|lrs| - 1])
  {
    var trainConf := conf;
    var results, valResults := results, valResults;
    var m := conf.modelType;
    assert lrs[..0] == [];
    assert done + RowCells(m, lrs[..0]) == done;
    for j := 0 to |lrs|
      invariant source == HSS ==> j == 0
      invariant trainConf == if j == 0 then conf else conf.(lr := lrs[j - 1])
      invariant valResults == ValScores(source, done + RowCells(m, lrs[..j]))
      invariant results == TestTable(source, done + RowCells(m, lrs[..j]))
    {
      trainConf := trainConf.(lr := lrs[j]);
      if source == HSS {
        trainConf := trainConf.(seed := 0);
        return Err(AppendOnDict(trainConf));
      }
      var cell := Cell(trainConf.modelType, trainConf.lr);
      var uarRes, valUarRes := RunCell(source, cell);
      ghost var before := done + RowCells(m, lrs[..j]);
      results, valResults := RecordCell(source, before, cell, uarRes, valUarRes, results, valResults);
      RowCellsStep(done, m, lrs, j);
    }
    assert lrs[..|lrs|] == lrs;
    r := Ok(Outcome(results, valResults, trainConf));
  }

  /**
   * The experiment of one cell: `val_uar_res` and `uar_res`, which hold the
   * cell's scores after `cv_experiment` for CinC and stay empty otherwise.
   */
  method RunCell(source: Source, cell: Cell) returns (uarRes: map<string, seq<Score>>, valUarRes: seq<Score>)
    requires source != HSS
    ensures uarRes == CellResults(source, cell, |TEST_METRIC_NAMES|)
    ensures valUarRes == if source == CinC then [ValMean(cell)] else []
  {
    uarRes := map n | n in TEST_METRIC_NAMES :: [];
    valUarRes := [];
    assert uarRes == CellResults(source, cell, 0);
    if source == CinC {
      valUarRes := valUarRes + [ValMean(cell)];
      for q := 0 to |TEST_METRIC_NAMES|
        invariant uarRes == CellResults(source, cell, q)
      {
        var name := TEST_METRIC_NAMES[q];
        CellResultsStep(source, cell, q);
        assert uarRes[name] + [TestMean(cell, name)] == [TestMean(cell, name)];
        uarRes := uarRes[name := uarRes[name] + [TestMean(cell, name)]];
      }
    }
  }

  /** The means of one cell appended to `val_results` and to each list of `results`. */
  method RecordCell(source: Source, ghost cells: seq<Cell>, cell: Cell,
                    uarRes: map<string, seq<Score>>, valUarRes: seq<Score>,
                    results: map<string, seq<Score>>, valResults: seq<Score>)
    returns (results': map<string, seq<Score>>, valResults': seq<Score>)
    requires source != HSS
    requires uarRes == CellResults(source, cell, |TEST_METRIC_NAMES|)
    requires valUarRes == if source == CinC then [ValMean(cell)] else []
    requires results == TestTable(source, cells) && valResults == ValScores(source, cells)
    ensures results' == TestTable(source, cells + [cell])
    ensures valResults' == ValScores(source, cells + [cell])
  {
    valResults' := valResults + [MeanOf(valUarRes)];
    ScoresStep(source, cells, cell);
    results' := results;
    PartTableStart(source, cells, cell);
    for q := 0 to |TEST_METRIC_NAMES|
      invariant results' == PartTable(source, cells, cell, q)
    {
      var name := TEST_METRIC_NAMES[q];
      PartTableStep(source, cells, cell, q);
      CellMean(source, cell, name);
      results' := results'[name := results'[name] + [MeanOf(uarRes[name])]];
    }
    PartTableEnd(source, cells, cell);
  }

  /** The mean of a cell's list for `name` is the cell's score for `name`. */
  lemma CellMean(source: Source, cell: Cell, name: string)
    requires source != HSS && name in TEST_METRIC_NAMES
    ensures |CellResults(source, cell, |TEST_METRIC_NAMES|)[name]| <= 1
    ensures MeanOf(CellResults(source, cell, |TEST_METRIC_NAMES|)[name]) == TestScore(source, cell, name)
  {
    assert TEST_METRIC_NAMES[..|TEST_METRIC_NAMES|] == TEST_METRIC_NAMES;
  }

  lemma PartTableEnd(source: Source, cells: seq<Cell>, cell: Cell)
    ensures PartTable(source, cells, cell, |TEST_METRIC_NAMES|) == TestTable(source, cells + [cell])
  {
    assert TEST_METRIC_NAMES[..|TEST_METRIC_NAMES|] == TEST_METRIC_NAMES;
    ScoresStep(source, cells, cell);
  }

  /** Each metric name is new to the names before it. */
  lemma MetricPrefixStep(q: nat)
    requires q < |TEST_METRIC_NAMES|
    ensures TEST_METRIC_NAMES[q] !in TEST_METRIC_NAMES[..q]
    ensures forall n :: n in TEST_METRIC_NAMES[..q + 1] <==> n in TEST_METRIC_NAMES[..q] || n == TEST_METRIC_NAMES[q]
  {
    assert TEST_METRIC_NAMES[..q + 1] == TEST_METRIC_NAMES[..q] + [TEST_METRIC_NAMES[q]];
  }

  lemma CellResultsStep(source: Source, cell: Cell, q: nat)
    requires source == CinC && q < |TEST_METRIC_NAMES|
    ensures var name := TEST_METRIC_NAMES[q];
      CellResults(source, cell, q)[name] == [] &&
      CellResults(source, cell, q)[name := [TestMean(cell, name)]] == CellResults(source, cell, q + 1)
  {
    MetricPrefixStep(q);
  }

  lemma PartTableStep(source: Source, cells: seq<Cell>, cell: Cell, q: nat)
    requires q < |TEST_METRIC_NAMES|
    ensures var name := TEST_METRIC_NAMES[q];
      PartTable(source, cells, cell, q)[name] == TestScores(source, cells, name) &&
      PartTable(source, cells, cell, q)[name := TestScores(source, cells, name) + [TestScore(source, cell, name)]]
        == PartTable(source, cells, cell, q + 1)
  {
    MetricPrefixStep(q);
  }

  lemma PartTableStart(source: Source, cells: seq<Cell>, cell: Cell)
    ensures PartTable(source, cells, cell, 0) == TestTable(source, cells)
  {
    assert TEST_METRIC_NAMES[..0] == [];
    forall n | n in TEST_METRIC_NAMES
      ensures PartTable(source, cells, cell, 0)[n] == TestTable(source, cells)[n]
    {
      assert TestScores(source, cells, n) + [] == TestScores(source, cells, n);
    }
  }

  lemma RowCellsStep(done: seq<Cell>, m: string, lrs: seq<real>, j: nat)
    requires j < |lrs|
    ensures done + RowCells(m, lrs[..j + 1]) == (done + RowCells(m, lrs[..j])) + [Cell(m, lrs[j])]
  {
    assert RowCells(m, lrs[..j + 1]) == RowCells(m, lrs[..j]) + [Cell(m, lrs[j])];
  }

  lemma ScoresStep(source: Source, cells: seq<Cell>, c: Cell)
    ensures ValScores(source, cells + [c]) == ValScores(source, cells) + [ValScore(source, c)]
    ensures forall n :: TestScores(source, cells + [c], n) == TestScores(source, cells, n) + [TestScore(source, c, n)]
  {
  }

  /** The grid has one cell per (model, learning rate) pair. */
  lemma {:induction false} GridCellsSize(models: seq<string>, lrs: seq<real>)
    ensures |GridCells(models, lrs)| == |models| * |lrs|
  {
    if models != [] {
      GridCellsSize(models[..|models| - 1], lrs);
      assert |models| * |lrs| == (|models| - 1) * |lrs| + |lrs|;
    }
  }

  /** Cell `k` pairs model `k / |lrs|` with learning rate `k % |lrs|`: model-major, learning-rate-minor. */
  lemma {:induction false} GridCellsAt(models: seq<string>, lrs: seq<real>, k: nat)
    requires k < |models| * |lrs|
    ensures |lrs| > 0 && k < |GridCells(models, lrs)|
    ensures GridCells(models, lrs)[k] == Cell(models[k / |lrs|], lrs[k % |lrs|])
  {
    var d := |lrs|;
    var n := |models| - 1;
    var prefix := models[..n];
    var row := RowCells(models[n], lrs);
    assert GridCells(models, lrs) == GridCells(prefix, lrs) + row;
    GridCellsSize(models, lrs);
    GridCellsSize(prefix, lrs);
    assert |models| * d == n * d + d;
    if k < n * d {
      GridCellsAt(prefix, lrs, k);
      DivBound(k, n, d);
      assert models[k / d] == prefix[k / d];
    } else {
      var j := k - n * d;
      DivModOf(n, j, d);
      assert GridCells(models, lrs)[k] == row[j];
    }
  }

  lemma DivBound(k: nat, n: nat, d: nat)
    requires d > 0 && k < n * d
    ensures k / d < n
  {
    if k / d >= n {
      MulMonotone(n, k / d, d);
    }
  }

  lemma MulMonotone(a: nat, b: nat, d: nat)
    requires a <= b
    ensures a * d <= b * d
  {
  }

  /** Euclidean division of `q * d + j` by `d`, for `j < d`, gives back `q` and `j`. */
  lemma DivModOf(q: nat, j: nat, d: nat)
    requires j < d
    ensures (q * d + j) / d == q && (q * d + j) % d == j
  {
    var x := q * d + j;
    var a, b := x / d, x % d;
    assert a * d + b == x && 0 <= b < d;
    assert (a - q) * d == j - b;
    if a - q >= 1 {
      MulAtLeast(a - q, d);
    } else if a - q <= -1 {
      MulAtLeast(q - a, d);
    }
  }

  lemma MulAtLeast(c: int, d: nat)
    requires c >= 1
    ensures c * d >= d
  {
  }

  /** A (model, learning rate) pair is a cell exactly when both are tried. */
  lemma {:induction false} GridCellsMembers(models: seq<string>, lrs: seq<real>, m: string, lr: real)
    ensures Cell(m, lr) in GridCells(models, lrs) <==> m in models && lr in lrs
  {
    if models != [] {
      var prefix := models[..|models| - 1];
      GridCellsMembers(prefix, lrs, m, lr);
      assert models == prefix + [models[|models| - 1]];
      var row := RowCells(models[|models| - 1], lrs);
      if lr in lrs && m == models[|models| - 1] {
        var j :| 0 <= j < |lrs| && lrs[j] == lr;
        assert row[j] == Cell(m, lr);
      }
    }
  }

  /** The grid of the script: ten cells, hence ten entries in every result list for CinC. */
  lemma MainGrid(conf: Config)
    ensures |GridCells(MODELS, LEARNING_RATES)| == 10
    ensures var r := RunGridSpec(CinC, conf, MODELS, LEARNING_RATES);
      && r.Ok?
      && |r.value.valResults| == 10
      && r.value.results.Keys == {"uar", "recall_1", "specificity", "f1"}
      && (forall n | n in r.value.results :: |r.value.results[n]| == 10)
      && r.value.conf == conf.(modelType := "resnext", lr := 0.00001)
  {
    GridCellsSize(MODELS, LEARNING_RATES);
  }

  /** For HSS the script stops in its first cell, with `vgg16`, the first learning rate and seed 0. */
  lemma HssGridFails(conf: Config)
    ensures RunGridSpec(HSS, conf, MODELS, LEARNING_RATES)
      == Err(AppendOnDict(conf.(modelType := "vgg16", lr := 0.0001, seed := 0)))
  {
  }
}
