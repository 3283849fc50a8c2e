/** The sweep driver run_firesim.py: for every hardware configuration,
    workload and repetition it points the runtime configuration at that
    pair, runs the simulation, and turns the UART log the run leaves behind
    into one row of the results table. */
module RunFiresim {
  import opened Wrappers
  import UartLog

  // ---------------------------------------------------------------------
  // The sweep's parameters
  // ---------------------------------------------------------------------

  /** The hardware configurations the sweep runs, outermost. */
  const DEFAULT_HW_CONFIGS: seq<string> := [
    "xilinx_vcu118_firesim_smallboom_null_prefetcher_singlecore_4GB_no_nic_10",
    "xilinx_vcu118_firesim_smallboom_null_prefetcher_singlecore_4GB_no_nic_50",
    "xilinx_vcu118_firesim_smallboom_null_prefetcher_singlecore_4GB_no_nic_100"]

  /** The workloads run on each configuration. */
  const WORKLOAD_NAMES: seq<string> := ["coremark.json"]

  /** How often each (configuration, workload) pair is run. */
  const NUM_ITERS: nat := 3

  // ---------------------------------------------------------------------
  // The runtime configuration, as loaded YAML
  // ---------------------------------------------------------------------

  /** A YAML document: scalars, mappings with string keys, and sequences. */
  datatype Yaml = Scalar(text: string) | Mapping(entries: map<string, Yaml>) | Sequence(items: seq<Yaml>)

  const TARGET_CONFIG := "target_config"
  const DEFAULT_HW_CONFIG := "default_hw_config"
  const WORKLOAD := "workload"
  const WORKLOAD_NAME := "workload_name"

  /** `c[section]` is a dictionary that can take an item assignment. */
  predicate IsSection(c: Yaml, section: string)
  {
    c.Mapping? && section in c.entries && c.entries[section].Mapping?
  }

  /** `c[section][key]`, where it exists. */
  function Lookup(c: Yaml, section: string, key: string): Option<Yaml>
  {
    if IsSection(c, section) && key in c.entries[section].entries
    then Some(c.entries[section].entries[key])
    else None
  }

  /** `c[section][key] = v` in Python: a `TypeError` when `c` or `c[section]`
      is not a dictionary, a `KeyError` when the section is missing, and
      otherwise exactly that one entry changes. */
  function SetField(c: Yaml, section: string, key: string, v: Yaml): (r: Result<Yaml>)
    ensures r.Success? <==> IsSection(c, section)
    ensures r.Success? ==>
      && IsSection(r.value, section)
      && r.value.entries.Keys == c.entries.Keys
      && (forall s :: s in c.entries && s != section ==> r.value.entries[s] == c.entries[s])
      && r.value.entries[section].entries.Keys == c.entries[section].entries.Keys + {key}
      && Lookup(r.value, section, key) == Some(v)
      && (forall k :: k in c.entries[section].entries && k != key ==>
            r.value.entries[section].entries[k] == c.entries[section].entries[k])
  {
    if !c.Mapping? then Failure("TypeError: the configuration is not a dictionary")
    else if section !in c.entries then Failure("KeyError: '" + section + "'")
    else if !c.entries[section].Mapping? then Failure("TypeError: '" + section + "' is not a dictionary")
    else Success(Mapping(c.entries[section := Mapping(c.entries[section].entries[key := v])]))
  }

  /** Both sections `update_yaml_file` writes into are dictionaries. */
  predicate Sections(c: Yaml)
  {
    IsSection(c, TARGET_CONFIG) && IsSection(c, WORKLOAD)
  }

  /** `update_yaml_file` on the loaded configuration: the hardware
      configuration, then the workload name. It fails exactly when one of
      the two sections is missing or not a dictionary, and otherwise changes
      those two fields and nothing else. */
  function UpdateConfig(c: Yaml, hw: string, wl: string): (r: Result<Yaml>)
    ensures r.Success? <==> Sections(c)
    ensures r.Success? ==>
      && Sections(r.value)
      && Lookup(r.value, TARGET_CONFIG, DEFAULT_HW_CONFIG) == Some(Scalar(hw))
      && Lookup(r.value, WORKLOAD, WORKLOAD_NAME) == Some(Scalar(wl))
  {
    var t := SetField(c, TARGET_CONFIG, DEFAULT_HW_CONFIG, Scalar(hw));
    if t.Failure? then t else SetField(t.value, WORKLOAD, WORKLOAD_NAME, Scalar(wl))
  }

  /** An update changes those two fields and nothing else: every other
      top-level entry and every other field of the two sections is left as
      it was. */
  lemma UpdateFrame(c: Yaml, hw: string, wl: string)
    requires Sections(c)
    ensures var r := UpdateConfig(c, hw, wl).value;
      && r.entries.Keys == c.entries.Keys
      && (forall s :: s in c.entries && s != TARGET_CONFIG && s != WORKLOAD ==> r.entries[s] == c.entries[s])
      && (forall s, k :: (s, k) != (TARGET_CONFIG, DEFAULT_HW_CONFIG) && (s, k) != (WORKLOAD, WORKLOAD_NAME) ==>
            Lookup(r, s, k) == Lookup(c, s, k))
  {
    var t := SetField(c, TARGET_CONFIG, DEFAULT_HW_CONFIG, Scalar(hw)).value;
    assert IsSection(t, WORKLOAD);
  }

  /** The updated configuration, written out. */
  lemma UpdateClosedForm(c: Yaml, hw: string, wl: string)
    requires Sections(c)
    ensures UpdateConfig(c, hw, wl).value ==
      Mapping(c.entries[TARGET_CONFIG := Mapping(c.entries[TARGET_CONFIG].entries[DEFAULT_HW_CONFIG := Scalar(hw)])]
                       [WORKLOAD := Mapping(c.entries[WORKLOAD].entries[WORKLOAD_NAME := Scalar(wl)])])
  {
    var t := SetField(c, TARGET_CONFIG, DEFAULT_HW_CONFIG, Scalar(hw)).value;
    assert t.entries[WORKLOAD] == c.entries[WORKLOAD];
  }

  /** Only the last update counts: updating an updated configuration is
      updating the original one. */
  lemma UpdateLastWins(c: Yaml, hw: string, wl: string, hw': string, wl': string)
    requires Sections(c)
    ensures UpdateConfig(UpdateConfig(c, hw, wl).value, hw', wl') == UpdateConfig(c, hw', wl')
  {
    var once := UpdateConfig(c, hw, wl).value;
    UpdateClosedForm(c, hw, wl);
    UpdateClosedForm(once, hw', wl');
    UpdateClosedForm(c, hw', wl');
    var e := c.entries;
    var tc, w := e[TARGET_CONFIG].entries, e[WORKLOAD].entries;
    assert once.entries[TARGET_CONFIG].entries == tc[DEFAULT_HW_CONFIG := Scalar(hw)];
    assert once.entries[WORKLOAD].entries == w[WORKLOAD_NAME := Scalar(wl)];
    EntriesLastWins(e, tc, w, hw, wl, hw', wl');
  }

  /** The same two writes twice over, on the entries themselves. */
  lemma EntriesLastWins(e: map<string, Yaml>, tc: map<string, Yaml>, w: map<string, Yaml>,
                        hw: string, wl: string, hw': string, wl': string)
    ensures var once := e[TARGET_CONFIG := Mapping(tc[DEFAULT_HW_CONFIG := Scalar(hw)])]
                         [WORKLOAD := Mapping(w[WORKLOAD_NAME := Scalar(wl)])];
      once[TARGET_CONFIG := Mapping(tc[DEFAULT_HW_CONFIG := Scalar(hw)][DEFAULT_HW_CONFIG := Scalar(hw')])]
          [WORKLOAD := Mapping(w[WORKLOAD_NAME := Scalar(wl)][WORKLOAD_NAME := Scalar(wl')])]
      == e[TARGET_CONFIG := Mapping(tc[DEFAULT_HW_CONFIG := Scalar(hw')])]
          [WORKLOAD := Mapping(w[WORKLOAD_NAME := Scalar(wl')])]
  {
    assert tc[DEFAULT_HW_CONFIG := Scalar(hw)][DEFAULT_HW_CONFIG := Scalar(hw')] == tc[DEFAULT_HW_CONFIG := Scalar(hw')];
    assert w[WORKLOAD_NAME := Scalar(wl)][WORKLOAD_NAME := Scalar(wl')] == w[WORKLOAD_NAME := Scalar(wl')];
  }

  /** Running the same update twice is running it once. */
  lemma UpdateIdempotent(c: Yaml, hw: string, wl: string)
    requires Sections(c)
    ensures UpdateConfig(UpdateConfig(c, hw, wl).value, hw, wl) == UpdateConfig(c, hw, wl)
  {
    UpdateLastWins(c, hw, wl, hw, wl);
  }

  // ---------------------------------------------------------------------
  // Rows of the results table
  // ---------------------------------------------------------------------

  /** A table cell: the scraped statistics and names are text, the run
      number is an integer. */
  datatype Cell = Text(s: string) | Number(n: int)

  type Row = map<string, Cell>

  const HW_COLUMN := "HW Config"
  const WORKLOAD_COLUMN := "Workload"
  const RUN_COLUMN := "Run"

  /** `run_results.update(...)`: the scraped statistics, then the
      configuration, the workload and the 1-based run number, which replace
      any statistic of the same name. */
  function MakeRow(parsed: map<string, string>, hw: string, wl: string, run: nat): (row: Row)
    ensures row.Keys == parsed.Keys + {HW_COLUMN, WORKLOAD_COLUMN, RUN_COLUMN}
    ensures row[HW_COLUMN] == Text(hw) && row[WORKLOAD_COLUMN] == Text(wl) && row[RUN_COLUMN] == Number(run + 1)
    ensures forall k :: k in parsed && k !in {HW_COLUMN, WORKLOAD_COLUMN, RUN_COLUMN} ==> row[k] == Text(parsed[k])
  {
    (map k | k in parsed :: Text(parsed[k]))[HW_COLUMN := Text(hw)][WORKLOAD_COLUMN := Text(wl)][RUN_COLUMN := Number(run + 1)]
  }

  lemma KeysAreNotColumns(k: string)
    requires k in UartLog.KEYS
    ensures k != HW_COLUMN && k != WORKLOAD_COLUMN && k != RUN_COLUMN
  {
  }

  /** No statistic scraped from a log is named like one of the three added
      columns, so a row keeps every value scraped from the log. */
  lemma RowKeepsStatistics(text: string, hw: string, wl: string, run: nat)
    ensures var parsed := UartLog.ParseUart(text);
      forall k :: k in parsed ==> MakeRow(parsed, hw, wl, run)[k] == Text(parsed[k])
  {
    var rs := UartLog.Readings(UartLog.LastLines(UartLog.ReadLines(UartLog.Newlines(text))));
    var parsed := UartLog.Scrape(rs);
    assert parsed == UartLog.ParseUart(text);
    UartLog.ScrapeKeys(rs);
    forall k | k in parsed
      ensures k !in {HW_COLUMN, WORKLOAD_COLUMN, RUN_COLUMN}
    {
      KeysAreNotColumns(k);
    }
  }

  // ---------------------------------------------------------------------
  // The order of the sweep
  // ---------------------------------------------------------------------

  /** One simulation: a configuration, a workload and a 0-based run. */
  datatype Attempt = Attempt(hw: string, wl: string, run: nat)

  /** The repetitions of one pair, in order. */
  function Runs(hw: string, wl: string): (a: seq<Attempt>)
    ensures |a| == NUM_ITERS && forall r :: 0 <= r < NUM_ITERS ==> a[r] == Attempt(hw, wl, r)
  {
    RunsUpTo(hw, wl, NUM_ITERS)
  }

  /** The first `n` repetitions of one pair. */
  function RunsUpTo(hw: string, wl: string, n: nat): (a: seq<Attempt>)
    ensures |a| == n && forall r :: 0 <= r < n ==> a[r] == Attempt(hw, wl, r)
  {
    if n == 0 then [] else RunsUpTo(hw, wl, n - 1) + [Attempt(hw, wl, n - 1)]
  }

  /** The attempts of one configuration: workload by workload. */
  function ForConfig(hw: string, ws: seq<string>): seq<Attempt>
  {
    if ws == [] then [] else ForConfig(hw, ws[..|ws| - 1]) + Runs(hw, ws[|ws| - 1])
  }

  /** The attempts of the whole sweep: configuration by configuration. */
  function Attempts(cs: seq<string>, ws: seq<string>): seq<Attempt>
  {
    if cs == [] then [] else Attempts(cs[..|cs| - 1], ws) + ForConfig(cs[|cs| - 1], ws)
  }

  lemma {:induction false} ForConfigCount(hw: string, ws: seq<string>)
    ensures |ForConfig(hw, ws)| == |ws| * NUM_ITERS
  {
    if ws != [] {
      ForConfigCount(hw, ws[..|ws| - 1]);
    }
  }

  /** The sweep runs |configurations| × |workloads| × NUM_ITERS simulations. */
  lemma {:induction false} AttemptsCount(cs: seq<string>, ws: seq<string>)
    ensures |Attempts(cs, ws)| == |cs| * |ws| * NUM_ITERS
  {
    if cs != [] {
      AttemptsCount(cs[..|cs| - 1], ws);
      ForConfigCount(cs[|cs| - 1], ws);
      assert (|cs| - 1) * |ws| * NUM_ITERS + |ws| * NUM_ITERS == |cs| * |ws| * NUM_ITERS;
    }
  }

  lemma {:induction false} ForConfigAt(hw: string, ws: seq<string>, wi: nat, r: nat)
    requires wi < |ws| && r < NUM_ITERS
    ensures wi * NUM_ITERS + r < |ForConfig(hw, ws)|
    ensures ForConfig(hw, ws)[wi * NUM_ITERS + r] == Attempt(hw, ws[wi], r)
  {
    var n := |ws| - 1;
    var front := ws[..n];
    ForConfigCount(hw, front);
    if wi < n {
      ForConfigAt(hw, front, wi, r);
    } else {
      assert ForConfig(hw, ws)[wi * NUM_ITERS + r] == Runs(hw, ws[n])[r];
    }
  }

  lemma MulAssoc(a: nat, b: nat, c: nat)
    ensures a * b * c == a * (b * c)
  {
  }

  lemma MulSucc(x: nat, b: nat)
    ensures (x + 1) * b == x * b + b
  {
  }

  lemma {:induction false} BlockBound(ci: nat, n: nat, block: nat, j: nat)
    requires ci < n && j < block
    ensures ci * block + j < n * block
    decreases n
  {
    MulSucc(n - 1, block);
    if ci < n - 1 {
      BlockBound(ci, n - 1, block, j);
    }
  }

  /** The sweep's order: configuration outermost, then workload, then run.
      Attempt (ci, wi, r) is number ci × (|workloads| × NUM_ITERS) +
      wi × NUM_ITERS + r. */
  lemma {:induction false} AttemptAt(cs: seq<string>, ws: seq<string>, ci: nat, wi: nat, r: nat)
    requires ci < |cs| && wi < |ws| && r < NUM_ITERS
    ensures ci * (|ws| * NUM_ITERS) + wi * NUM_ITERS + r < |Attempts(cs, ws)|
    ensures Attempts(cs, ws)[ci * (|ws| * NUM_ITERS) + wi * NUM_ITERS + r] == Attempt(cs[ci], ws[wi], r)
  {
    var n := |cs| - 1;
    var front := cs[..n];
    var block := |ws| * NUM_ITERS;
    var j := wi * NUM_ITERS + r;
    var i := ci * block + j;
    AttemptsCount(front, ws);
    MulAssoc(n, |ws|, NUM_ITERS);
    ForConfigCount(cs[n], ws);
    ForConfigAt(cs[n], ws, wi, r);
    assert Attempts(cs, ws) == Attempts(front, ws) + ForConfig(cs[n], ws);
    if ci < n {
      AttemptAt(front, ws, ci, wi, r);
      BlockBound(ci, n, block, j);
    } else {
      assert i - |Attempts(front, ws)| == j;
    }
  }

  // ---------------------------------------------------------------------
  // The rows of the sweep
  // ---------------------------------------------------------------------

  /** The row an attempt contributes: one when its UART log exists,
      none otherwise. `uart` gives the log each attempt leaves behind. */
  function RowFor(uart: Attempt -> Option<string>, a: Attempt): (rows: seq<Row>)
    ensures |rows| <= 1 && (|rows| == 1 <==> uart(a).Some?)
  {
    match uart(a)
    case None => []
    case Some(text) => [MakeRow(UartLog.ParseUart(text), a.hw, a.wl, a.run)]
  }

  /** `RowFor` as a function value, for `RowsOf`. */
  function RowsFrom(uart: Attempt -> Option<string>): Attempt -> seq<Row>
  {
    a => RowFor(uart, a)
  }

  /** The rows a sequence of attempts contributes, in attempt order. */
  function RowsOf(rowOf: Attempt -> seq<Row>, attempts: seq<Attempt>): seq<Row>
  {
    if attempts == [] then []
    else RowsOf(rowOf, attempts[..|attempts| - 1]) + rowOf(attempts[|attempts| - 1])
  }

  /** The results table of the whole sweep. */
  function SweepRows(cs: seq<string>, ws: seq<string>, uart: Attempt -> Option<string>): seq<Row>
  {
    RowsOf(RowsFrom(uart), Attempts(cs, ws))
  }

  /** At most one row per attempt, and exactly one each when every attempt
      contributes one. */
  lemma {:induction false} RowsOfCount(rowOf: Attempt -> seq<Row>, attempts: seq<Attempt>)
    requires forall a :: |rowOf(a)| <= 1
    ensures |RowsOf(rowOf, attempts)| <= |attempts|
    ensures (forall i :: 0 <= i < |attempts| ==> |rowOf(attempts[i])| == 1) ==> |RowsOf(rowOf, attempts)| == |attempts|
  {
    if attempts != [] {
      var front := attempts[..|attempts| - 1];
      RowsOfCount(rowOf, front);
      if forall i :: 0 <= i < |attempts| ==> |rowOf(attempts[i])| == 1 {
        assert forall i :: 0 <= i < |front| ==> |rowOf(front[i])| == 1 by {
          forall i | 0 <= i < |front| ensures |rowOf(front[i])| == 1 {
            assert front[i] == attempts[i];
          }
        }
      }
    }
  }

  /** The table has at most |configurations| × |workloads| × NUM_ITERS rows,
      and exactly that many when every run leaves a log. */
  lemma SweepRowsCount(cs: seq<string>, ws: seq<string>, uart: Attempt -> Option<string>)
    ensures |SweepRows(cs, ws, uart)| <= |cs| * |ws| * NUM_ITERS
    ensures (forall a :: uart(a).Some?) ==> |SweepRows(cs, ws, uart)| == |cs| * |ws| * NUM_ITERS
  {
    var attempts := Attempts(cs, ws);
    AttemptsCount(cs, ws);
    forall a ensures |RowsFrom(uart)(a)| <= 1 && (|RowsFrom(uart)(a)| == 1 <==> uart(a).Some?) {
      assert RowsFrom(uart)(a) == RowFor(uart, a);
    }
    RowsOfCount(RowsFrom(uart), attempts);
  }

  /** With the configured lists, the table has at most nine rows. */
  lemma DefaultSweepRows(uart: Attempt -> Option<string>)
    ensures |SweepRows(DEFAULT_HW_CONFIGS, WORKLOAD_NAMES, uart)| <= 9
  {
    SweepRowsCount(DEFAULT_HW_CONFIGS, WORKLOAD_NAMES, uart);
  }

  // ---------------------------------------------------------------------
  // The sweep itself
  // ---------------------------------------------------------------------

  /** The rows of two runs of attempts, one after the other. */
  lemma {:induction false} RowsOfAppend(rowOf: Attempt -> seq<Row>, xs: seq<Attempt>, ys: seq<Attempt>)
    ensures RowsOf(rowOf, xs + ys) == RowsOf(rowOf, xs) + RowsOf(rowOf, ys)
    decreases |ys|
  {
    if ys == [] {
      assert xs + ys == xs;
    } else {
      var n := |ys| - 1;
      var all := xs + ys;
      RowsOfAppend(rowOf, xs, ys[..n]);
      assert all[..|all| - 1] == xs + ys[..n];
      assert all[|all| - 1] == ys[n];
      assert RowsOf(rowOf, all) == RowsOf(rowOf, xs + ys[..n]) + rowOf(ys[n]);
      assert RowsOf(rowOf, ys) == RowsOf(rowOf, ys[..n]) + rowOf(ys[n]);
      RowsAssoc(RowsOf(rowOf, xs), RowsOf(rowOf, ys[..n]), rowOf(ys[n]));
    }
  }

  lemma RowsAssoc(a: seq<Row>, b: seq<Row>, c: seq<Row>)
    ensures (a + b) + c == a + (b + c)
  {
  }

  lemma RowsOfSnoc(rowOf: Attempt -> seq<Row>, done: seq<Attempt>, a: Attempt)
    ensures RowsOf(rowOf, done + [a]) == RowsOf(rowOf, done) + rowOf(a)
  {
    assert (done + [a])[..|done|] == done;
  }

  /** One more workload done: its runs' rows follow the earlier ones. */
  lemma ForConfigRowsStep(rowOf: Attempt -> seq<Row>, hw: string, ws: seq<string>, wi: nat, before: seq<Row>)
    requires wi < |ws|
    ensures before + RowsOf(rowOf, ForConfig(hw, ws[..wi + 1]))
         == (before + RowsOf(rowOf, ForConfig(hw, ws[..wi]))) + RowsOf(rowOf, Runs(hw, ws[wi]))
  {
    assert ws[..wi + 1][..wi] == ws[..wi];
    RowsOfAppend(rowOf, ForConfig(hw, ws[..wi]), Runs(hw, ws[wi]));
    RowsAssoc(before, RowsOf(rowOf, ForConfig(hw, ws[..wi])), RowsOf(rowOf, Runs(hw, ws[wi])));
  }

  /** One more configuration done: its rows follow the earlier ones. */
  lemma AttemptsRowsStep(rowOf: Attempt -> seq<Row>, cs: seq<string>, ws: seq<string>, ci: nat)
    requires ci < |cs|
    ensures RowsOf(rowOf, Attempts(cs[..ci + 1], ws)) == RowsOf(rowOf, Attempts(cs[..ci], ws)) + RowsOf(rowOf, ForConfig(cs[ci], ws))
  {
    assert cs[..ci + 1][..ci] == cs[..ci];
    RowsOfAppend(rowOf, Attempts(cs[..ci], ws), ForConfig(cs[ci], ws));
  }

  /** One pass of the innermost loop: rewrite the configuration for the
      attempt's pair, and when the run leaves a UART log, append its row.
      A failed update ends the pass before anything is appended. */
  method RunAttempt(config: Yaml, results: seq<Row>, attempt: Attempt, uart: Attempt -> Option<string>)
    returns (updated: Result<Yaml>, results': seq<Row>)
    ensures updated == UpdateConfig(config, attempt.hw, attempt.wl)
    ensures updated.Success? ==> results' == results + RowFor(uart, attempt)
  {
    updated := UpdateConfig(config, attempt.hw, attempt.wl);
    results' := results;
    if updated.Failure? {
      return;
    }
    var log := uart(attempt);
    if log.Some? {
      var parsed := UartLog.ParseUartLog(log.value);
      results' := results' + [MakeRow(parsed, attempt.hw, attempt.wl, attempt.run)];
    }
  }

  /** The loop over runs, for one (configuration, workload) pair. It fails
      at its first update exactly when the configuration lacks the two
      sections; rerunning the same update changes nothing further. */
  method SweepRuns(config: Yaml, results: seq<Row>, hw: string, wl: string, uart: Attempt -> Option<string>)
    returns (updated: Result<Yaml>, results': seq<Row>)
    ensures updated.Failure? <==> !Sections(config)
    ensures updated.Success? ==>
      && updated.value == UpdateConfig(config, hw, wl).value
      && results' == results + RowsOf(RowsFrom(uart), Runs(hw, wl))
  {
    var current := config;
    results' := results;
    for run := 0 to NUM_ITERS
      invariant run == 0 ==> current == config
      invariant run > 0 ==> Sections(config) && current == UpdateConfig(config, hw, wl).value
      invariant results' == results + RowsOf(RowsFrom(uart), RunsUpTo(hw, wl, run))
    {
      var attempt := Attempt(hw, wl, run);
      var next;
      next, results' := RunAttempt(current, results', attempt, uart);
      if next.Failure? {
        updated := next;
        return;
      }
      if run > 0 {
        UpdateIdempotent(config, hw, wl);
      }
      current := next.value;
      assert RowsFrom(uart)(attempt) == RowFor(uart, attempt);
      RowsOfSnoc(RowsFrom(uart), RunsUpTo(hw, wl, run), attempt);
      RowsAssoc(results, RowsOf(RowsFrom(uart), RunsUpTo(hw, wl, run)), RowFor(uart, attempt));
    }
    updated := Success(current);
  }

  /** The loop over workloads, for one configuration. */
  method SweepWorkloads(config: Yaml, results: seq<Row>, hw: string, ws: seq<string>, uart: Attempt -> Option<string>)
    returns (updated: Result<Yaml>, results': seq<Row>)
    ensures updated.Failure? <==> ws != [] && !Sections(config)
    ensures updated.Success? ==>
      && updated.value == (if ws == [] then config else UpdateConfig(config, hw, ws[|ws| - 1]).value)
      && results' == results + RowsOf(RowsFrom(uart), ForConfig(hw, ws))
  {
    var current := config;
    results' := results;
    for wi := 0 to |ws|
      invariant wi == 0 ==> current == config
      invariant wi > 0 ==> Sections(config) && current == UpdateConfig(config, hw, ws[wi - 1]).value
      invariant results' == results + RowsOf(RowsFrom(uart), ForConfig(hw, ws[..wi]))
    {
      var next;
      next, results' := SweepRuns(current, results', hw, ws[wi], uart);
      if next.Failure? {
        updated := next;
        return;
      }
      if wi > 0 {
        UpdateLastWins(config, hw, ws[wi - 1], hw, ws[wi]);
      }
      current := next.value;
      ForConfigRowsStep(RowsFrom(uart), hw, ws, wi, results);
    }
    assert ws[..|ws|] == ws;
    updated := Success(current);
  }

  /** `main`: configurations outermost, then workloads, then runs. Each
      attempt rewrites the configuration, runs the simulation (whose outcome
      is only the log it leaves, given by `uart`) and, when a log exists,
      appends its row. A configuration without the two sections ends the
      sweep at the first update with nothing saved; otherwise the table is
      `SweepRows` and the file ends up naming the last pair. */
  method Sweep(config0: Yaml, cs: seq<string>, ws: seq<string>, uart: Attempt -> Option<string>)
    returns (r: Result<seq<Row>>, config: Yaml)
    ensures r.Failure? <==> |cs| > 0 && |ws| > 0 && !Sections(config0)
    ensures r.Success? ==> r.value == SweepRows(cs, ws, uart)
    ensures r.Failure? || |cs| == 0 || |ws| == 0 ==> config == config0
    ensures r.Success? && |cs| > 0 && |ws| > 0 ==> config == UpdateConfig(config0, cs[|cs| - 1], ws[|ws| - 1]).value
  {
    var results: seq<Row> := [];
    config := config0;
    for ci := 0 to |cs|
      invariant ci == 0 || ws == [] ==> config == config0
      invariant ci > 0 && ws != [] ==> Sections(config0) && config == UpdateConfig(config0, cs[ci - 1], ws[|ws| - 1]).value
      invariant results == RowsOf(RowsFrom(uart), Attempts(cs[..ci], ws))
    {
      var next;
      next, results := SweepWorkloads(config, results, cs[ci], ws, uart);
      if next.Failure? {
        r := Failure(next.error);
        return;
      }
      if ci > 0 && ws != [] {
        UpdateLastWins(config0, cs[ci - 1], ws[|ws| - 1], cs[ci], ws[|ws| - 1]);
      }
      config := next.value;
      AttemptsRowsStep(RowsFrom(uart), cs, ws, ci);
    }
    assert cs[..|cs|] == cs;
    r := Success(results);
  }
}
