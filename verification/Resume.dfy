/** Inference reports, the index read back from one, and the run that skips what the index vouches for. */
module Resume {
  import opened Labels
  import opened Text
  import opened Wrappers

  datatype Status = Passed | Failed | Error | Timeout | Cancelled | Skipped

  datatype Phase = Allocating | Starting | Testing | Cleanup | Complete

  /** The outcome of a task; of its cases only how many there were and how many passed. */
  datatype TaskResult = TaskResult(status: Status, phase: Phase, passedCases: nat, cases: nat)

  /** What the task runner can return: it never reports a task as skipped. */
  type Executed = r: TaskResult | r.status != Skipped && r.passedCases <= r.cases
    witness TaskResult(Error, Allocating, 0, 0)

  /** The ratio column: a number of percent, or a text that is not one. */
  datatype Cell = Percent(value: real) | Unreadable

  datatype Row = Row(model: string, ratio: Cell, stage: string, modelPath: string)

  /** A report table and the manifest beside it, which reports of older versions lack. */
  datatype Report = Report(fingerprints: Option<map<string, string>>, rows: seq<Row>)

  // ---------------------------------------------------------------- writing rows

  function Stage(r: TaskResult): string {
    match r.status
    case Passed => "NORMAL_END"
    case Skipped => "NORMAL_END"
    case Failed => "ACCURACY_FAILED"
    case Timeout => "TIMEOUT"
    case Cancelled => "CANCELLED"
    case Error =>
      match r.phase
      case Allocating => "INIT"
      case Starting => "STARTING_SERVER"
      case Testing => "INFERENCING"
      case Cleanup => "CRASH"
      case Complete => "CRASH"
  }

  function CorrectRatio(r: TaskResult): real {
    if r.cases == 0 then 0.0 else r.passedCases as real / r.cases as real
  }

  /** Six significant digits: of the percentages up to a hundred, those from here on read as 100. */
  const ROUNDS_TO_FULL: real := 99.99995

  function Printed(percent: real): real { if ROUNDS_TO_FULL <= percent <= 100.0 then 100.0 else percent }

  function InferenceRow(t: Labelled, r: TaskResult): Row {
    var ratio := if r.status == Skipped then 1.0 else CorrectRatio(r);
    Row(t.tag, Percent(Printed(ratio * 100.0)), Stage(r), t.task.modelPath)
  }

  // ---------------------------------------------------------------- reading rows

  function Matching(rows: seq<Row>, tag: string): seq<Row> {
    if rows == [] then []
    else
      var before := Matching(rows[..|rows| - 1], tag);
      if Strip(rows[|rows| - 1].model) == tag then before + [rows[|rows| - 1]] else before
  }

  predicate Good(row: Row, t: Labelled) {
    row.ratio == Percent(100.0) && Strip(row.stage) == "NORMAL_END" && row.modelPath == t.task.modelPath
  }

  predicate ManifestAgrees(fingerprints: Option<map<string, string>>, t: Labelled) {
    match fingerprints
    case None => true
    case Some(m) => t.tag in m && m[t.tag] == t.task.fingerprint
  }

  predicate Skips(previous: Option<Report>, t: Labelled) {
    && previous.Some?
    && var rows := Matching(previous.value.rows, t.tag);
       && rows != [] && ManifestAgrees(previous.value.fingerprints, t)
       && forall i | 0 <= i < |rows| :: Good(rows[i], t)
  }

  lemma NothingMatches()
    ensures forall tag: string :: Matching([], tag) == []
  {
  }

  lemma {:induction false} MatchingStep(rows: seq<Row>, i: nat, tag: string)
    requires i < |rows|
    ensures var before := Matching(rows[..i], tag);
      Matching(rows[..i + 1], tag) == if Strip(rows[i].model) == tag then before + [rows[i]] else before
  {
    hide Strip;
    assert rows[..i + 1][..i] == rows[..i];
  }

  class ResumeIndex {
    var rows: map<string, seq<Row>>
    var fingerprints: Option<map<string, string>>

    function Group(tag: string): seq<Row>
      reads this
    {
      if tag in rows then rows[tag] else []
    }

    ghost predicate Indexes(previous: Option<Report>)
      reads this
    {
      && (forall tag: string :: Group(tag) == if previous.Some? then Matching(previous.value.rows, tag) else [])
      && fingerprints == if previous.Some? then previous.value.fingerprints else None
    }

    constructor (path: Option<Report>)
      ensures Indexes(path)
    {
      rows, fingerprints := map[], None;
      new;
      hide Matching, Strip;
      NothingMatches();
      if path.Some? {
        var table := path.value.rows;
        var i := 0;
        assert table[..i] == [];
        while i < |table|
          invariant 0 <= i <= |table|
          invariant fingerprints == None
          invariant forall tag: string :: Group(tag) == Matching(table[..i], tag)
        {
          var key := Strip(table[i].model);
          rows := rows[key := Group(key) + [table[i]]];
          forall tag: string
            ensures Group(tag) == Matching(table[..i + 1], tag)
          {
            MatchingStep(table, i, tag);
          }
          i := i + 1;
        }
        assert table[..i] == table;
        fingerprints := path.value.fingerprints;
      }
    }

    method ShouldSkip(t: Labelled, ghost previous: Option<Report>) returns (skip: bool)
      requires Indexes(previous)
      ensures skip == Skips(previous, t)
    {
      hide Matching, Strip;
      var rows := Group(t.tag);
      if |rows| == 0 { return false; }
      if fingerprints.Some? && !(t.tag in fingerprints.value && fingerprints.value[t.tag] == t.task.fingerprint) {
        return false;
      }
      for i := 0 to |rows|
        invariant forall k | 0 <= k < i :: Good(rows[k], t)
      {
        if rows[i].ratio.Unreadable? { return false; }
        if Strip(rows[i].stage) != "NORMAL_END" || rows[i].ratio.value != 100.0 ||
           rows[i].modelPath != t.task.modelPath {
          return false;
        }
      }
      return true;
    }
  }

  // ---------------------------------------------------------------- one run

  /** The manifest dictionary: of two entries with one tag the later stays. */
  function Manifest(labelled: seq<Labelled>): map<string, string> {
    if labelled == [] then map[]
    else Manifest(labelled[..|labelled| - 1])[labelled[|labelled| - 1].tag := labelled[|labelled| - 1].task.fingerprint]
  }

  function Todo(previous: Option<Report>, labelled: seq<Labelled>): seq<Labelled> {
    if labelled == [] then []
    else
      var last := labelled[|labelled| - 1];
      Todo(previous, labelled[..|labelled| - 1]) + if Skips(previous, last) then [] else [last]
  }

  function SkippedTasks(previous: Option<Report>, labelled: seq<Labelled>): seq<Labelled> {
    if labelled == [] then []
    else
      var last := labelled[|labelled| - 1];
      SkippedTasks(previous, labelled[..|labelled| - 1]) + if Skips(previous, last) then [last] else []
  }

  /** The submitted tasks in the order in which they complete, each once; an interrupt cuts the list short. */
  function Yielded(count: nat, completions: seq<nat>): (done: seq<nat>)
    ensures forall i | 0 <= i < |done| :: done[i] < count
  {
    if completions == [] then []
    else
      var before, last := Yielded(count, completions[..|completions| - 1]), completions[|completions| - 1];
      if last < count && last !in before then before + [last] else before
  }

  /** Exactly the futures that complete are yielded, and none of them twice. */
  lemma {:induction false} EachFutureOnce(count: nat, completions: seq<nat>)
    ensures forall f: nat :: f in Yielded(count, completions) <==> f < count && f in completions
    ensures forall i, j | 0 <= i < j < |Yielded(count, completions)| ::
      Yielded(count, completions)[i] != Yielded(count, completions)[j]
  {
    if completions != [] {
      var init, last := completions[..|completions| - 1], completions[|completions| - 1];
      assert completions == init + [last];
      EachFutureOnce(count, init);
    }
  }

  const SKIPPED_RESULT := TaskResult(Skipped, Complete, 0, 0)

  function SkippedRows(skipped: seq<Labelled>): seq<Row> {
    seq(|skipped|, i requires 0 <= i < |skipped| => InferenceRow(skipped[i], SKIPPED_RESULT))
  }

  function RowsOf(todo: seq<Labelled>, execute: Labelled -> Executed, done: seq<nat>): seq<Row>
    requires forall i | 0 <= i < |done| :: done[i] < |todo|
  {
    seq(|done|, i requires 0 <= i < |done| => InferenceRow(todo[done[i]], execute(todo[done[i]])))
  }

  function ExecutedRows(todo: seq<Labelled>, execute: Labelled -> Executed, completions: seq<nat>): seq<Row> {
    RowsOf(todo, execute, Yielded(|todo|, completions))
  }

  /** The planned tasks of a run, what executing each of them would give, and how the run unfolds. */
  datatype Run = Run(tasks: seq<Task>, execute: Labelled -> Executed, completions: seq<nat>)

  function RunReport(previous: Option<Report>, run: Run): Report {
    var labelled := LabelTasks(run.tasks);
    Report(
      Some(Manifest(labelled)),
      SkippedRows(SkippedTasks(previous, labelled)) +
      ExecutedRows(Todo(previous, labelled), run.execute, run.completions))
  }

  class CsvReport {
    var manifest: map<string, string>
    var stream: seq<Row>

    constructor (labelled: seq<Labelled>)
      ensures manifest == Manifest(labelled) && stream == []
    {
      manifest, stream := map[], [];
      new;
      for i := 0 to |labelled|
        invariant manifest == Manifest(labelled[..i]) && stream == []
      {
        manifest := manifest[labelled[i].tag := labelled[i].task.fingerprint];
        assert labelled[..i + 1][..i] == labelled[..i];
      }
      assert labelled[..|labelled|] == labelled;
    }

    method Write(t: Labelled, r: TaskResult) returns (row: Row)
      modifies this`stream
      ensures row == InferenceRow(t, r) && stream == old(stream) + [row]
    {
      row := InferenceRow(t, r);
      stream := stream + [row];
    }
  }

  method Partition(index: ResumeIndex, labelled: seq<Labelled>, ghost previous: Option<Report>)
    returns (todo: seq<Labelled>, skipped: seq<Labelled>)
    requires index.Indexes(previous)
    ensures todo == Todo(previous, labelled) && skipped == SkippedTasks(previous, labelled)
  {
    hide Skips;
    todo, skipped := [], [];
    for i := 0 to |labelled|
      invariant todo == Todo(previous, labelled[..i]) && skipped == SkippedTasks(previous, labelled[..i])
    {
      var skip := index.ShouldSkip(labelled[i], previous);
      if skip { skipped := skipped + [labelled[i]]; } else { todo := todo + [labelled[i]]; }
      assert labelled[..i + 1][..i] == labelled[..i];
    }
    assert labelled[..|labelled|] == labelled;
  }

  /** Submits everything, then writes each result when its future completes. */
  method RunTasks(todo: seq<Labelled>, run: Run, report: CsvReport)
    modifies report`stream
    ensures report.stream == old(report.stream) + ExecutedRows(todo, run.execute, run.completions)
  {
    hide Yielded, InferenceRow, RowsOf;
    var pending: set<nat> := {};
    for i := 0 to |todo|
      invariant forall f: nat :: f in pending <==> f < i
    {
      pending := pending + {i};
    }
    var k := 0;
    ghost var yielded: seq<nat> := [];
    NothingYet(todo, run);
    while pending != {} && k < |run.completions|
      invariant 0 <= k <= |run.completions|
      invariant yielded == Yielded(|todo|, run.completions[..k])
      invariant forall i: nat :: i in pending <==> i < |todo| && i !in yielded
      invariant report.stream == old(report.stream) + RowsOf(todo, run.execute, yielded)
    {
      var future := run.completions[k];
      YieldedStep(|todo|, run.completions, k);
      if future in pending {
        pending := pending - {future};
        var row := report.Write(todo[future], run.execute(todo[future]));
        RowsStep(todo, run.execute, yielded, future);
        yielded := yielded + [future];
      }
      k := k + 1;
    }
    NothingAfterAll(|todo|, run.completions, k);
  }

  lemma {:induction false} NothingYet(todo: seq<Labelled>, run: Run)
    ensures Yielded(|todo|, run.completions[..0]) == [] && RowsOf(todo, run.execute, []) == []
  {
  }

  lemma {:induction false} YieldedStep(count: nat, completions: seq<nat>, k: nat)
    requires k < |completions|
    ensures var before := Yielded(count, completions[..k]);
      Yielded(count, completions[..k + 1]) ==
        if completions[k] < count && completions[k] !in before then before + [completions[k]] else before
  {
    assert completions[..k + 1][..k] == completions[..k];
  }

  lemma RowsStep(todo: seq<Labelled>, execute: Labelled -> Executed, done: seq<nat>, f: nat)
    requires f < |todo| && forall i | 0 <= i < |done| :: done[i] < |todo|
    ensures RowsOf(todo, execute, done + [f]) == RowsOf(todo, execute, done) + [InferenceRow(todo[f], execute(todo[f]))]
  {
  }

  lemma {:induction false} NothingAfterAll(count: nat, completions: seq<nat>, k: nat)
    requires k <= |completions|
    requires k == |completions| || forall i: nat | i < count :: i in Yielded(count, completions[..k])
    ensures Yielded(count, completions) == Yielded(count, completions[..k])
  {
    if k == |completions| {
      assert completions[..k] == completions;
    } else {
      var init := completions[..|completions| - 1];
      assert init[..k] == completions[..k];
      NothingAfterAll(count, init, k);
    }
  }

  method RunInference(run: Run, previous: Option<Report>) returns (report: Report)
    ensures report == RunReport(previous, run)
  {
    hide LabelTasks, InferenceRow, Skips, Todo, SkippedTasks, ExecutedRows, Yielded, Manifest;
    var labelled := LabelTasks(run.tasks);
    var index := new ResumeIndex(previous);
    var todo, skipped := Partition(index, labelled, previous);
    var csv := new CsvReport(labelled);
    for i := 0 to |skipped|
      invariant csv.manifest == Manifest(labelled) && csv.stream == SkippedRows(skipped)[..i]
    {
      var row := csv.Write(skipped[i], SKIPPED_RESULT);
    }
    RunTasks(todo, run, csv);
    report := Report(Some(csv.manifest), csv.stream);
  }
}
