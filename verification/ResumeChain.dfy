/**
 What a skip is worth: over any family of runs that resume from one another's reports, a task is
 skipped exactly when some earlier run of the same configuration passed it in full.
 */
module ResumeChain {
  import opened Labels
  import opened Resume
  import opened Text
  import opened Wrappers

  // ---------------------------------------------------------------- what full marks are

  ghost predicate FullPass(r: Executed) { r.status == Passed && Printed(CorrectRatio(r) * 100.0) == 100.0 }

  /** The printed ratio hides at most one failure in two million cases. */
  lemma FullPassMeans(r: Executed)
    ensures FullPass(r) <==> r.status == Passed && r.cases > 0 && 2_000_000 * (r.cases - r.passedCases) <= r.cases
    ensures FullPass(r) && r.cases < 2_000_000 ==> r.passedCases == r.cases
  {
    if r.cases > 0 {
      var n, p := r.cases as real, r.passedCases as real;
      var ratio := p / n;
      assert ratio * n == p;
      RatioAtMost(ratio, p, n, 1.0);
      RatioAtLeast(ratio, p, n, 0.9999995);
      assert 99.99995 <= ratio * 100.0 <==> 0.9999995 <= ratio;
      assert p >= 0.9999995 * n <==> 2_000_000.0 * (n - p) <= n;
    }
  }

  lemma RatioAtMost(ratio: real, p: real, n: real, bound: real)
    requires n > 0.0 && ratio * n == p
    ensures ratio <= bound <==> p <= bound * n
  {
    if ratio > bound { assert (ratio - bound) * n > 0.0; } else { assert (bound - ratio) * n >= 0.0; }
  }

  lemma RatioAtLeast(ratio: real, p: real, n: real, bound: real)
    requires n > 0.0 && ratio * n == p
    ensures bound <= ratio <==> bound * n <= p
  {
    if ratio >= bound { assert (ratio - bound) * n >= 0.0; } else { assert (bound - ratio) * n > 0.0; }
  }

  // ---------------------------------------------------------------- rows

  lemma {:induction false} MatchingRows(rows: seq<Row>, tag: string, row: Row)
    ensures row in Matching(rows, tag) <==> row in rows && Strip(row.model) == tag
  {
    if rows != [] {
      var init, last := rows[..|rows| - 1], rows[|rows| - 1];
      assert rows == init + [last];
      MatchingRows(init, tag, row);
    }
  }

  lemma Stages()
    ensures Trimmed("NORMAL_END") && Trimmed("ACCURACY_FAILED") && Trimmed("TIMEOUT") && Trimmed("CANCELLED")
    ensures Trimmed("INIT") && Trimmed("STARTING_SERVER") && Trimmed("INFERENCING") && Trimmed("CRASH")
  {
  }

  lemma StageIsNormalEnd(r: TaskResult)
    ensures Strip(Stage(r)) == "NORMAL_END" <==> r.status in {Passed, Skipped}
  {
    hide Strip;
    Stages();
    StripTrims(Stage(r));
    assert Stage(r)[0] == 'N' <==> r.status in {Passed, Skipped};
  }

  /** A written row reads as a success exactly when the task was skipped or passed in full. */
  lemma RowIsGood(u: Labelled, r: TaskResult, t: Labelled)
    requires r.status != Skipped ==> r.passedCases <= r.cases
    ensures Good(InferenceRow(u, r), t) <==>
      u.task.modelPath == t.task.modelPath && (r.status == Skipped || FullPass(r))
  {
    hide Strip, Stage, CorrectRatio;
    StageIsNormalEnd(r);
  }

  /** What the stage column says, status by status; an error is told by the phase in which it came up. */
  ghost predicate StageTells(stage: string, r: TaskResult) {
    && (stage == "NORMAL_END" <==> r.status == Passed || r.status == Skipped)
    && (stage == "ACCURACY_FAILED" <==> r.status == Failed)
    && (stage == "TIMEOUT" <==> r.status == Timeout)
    && (stage == "CANCELLED" <==> r.status == Cancelled)
    && (stage == "INIT" <==> r.status == Error && r.phase == Allocating)
    && (stage == "STARTING_SERVER" <==> r.status == Error && r.phase == Starting)
    && (stage == "INFERENCING" <==> r.status == Error && r.phase == Testing)
    && (stage == "CRASH" <==> r.status == Error && (r.phase == Cleanup || r.phase == Complete))
  }

  lemma StagesTell(r: TaskResult)
    ensures StageTells(Stage(r), r)
  {
    Stages();
  }

  /** The percentage of passed cases, none of none, and up to half of the last digit from a full hundred. */
  ghost predicate RatioTells(ratio: Cell, r: Executed) {
    && ratio.Percent?
    && if r.cases == 0 then ratio.value == 0.0
       else if 2_000_000 * (r.cases - r.passedCases) <= r.cases then ratio.value == 100.0
       else ratio.value * r.cases as real == 100.0 * r.passedCases as real
  }

  lemma RatiosTell(t: Labelled, r: Executed)
    ensures RatioTells(InferenceRow(t, r).ratio, r)
  {
    hide Stage;
    FullPassMeans(r.(status := Passed));
    if r.cases != 0 { QuotientTimes(r.passedCases as real, r.cases as real); }
  }

  lemma QuotientTimes(a: real, b: real)
    requires b != 0.0
    ensures a / b * 100.0 * b == 100.0 * a
  {
    var q := a / b;
    assert q * b == a;
    assert q * 100.0 * b == 100.0 * (q * b);
  }

  /** What a reader can conclude from a row of a report about the execution that it stands for. */
  lemma RowTells(previous: Option<Report>, run: Run, row: Row) returns (t: Labelled)
    requires row in RunReport(previous, run).rows
    ensures WrittenFor(previous, run, row, t) && row.model == t.tag && row.modelPath == t.task.modelPath
    ensures Skips(previous, t) ==> row.stage == "NORMAL_END" && row.ratio == Percent(100.0)
    ensures !Skips(previous, t) ==> StageTells(row.stage, run.execute(t)) && RatioTells(row.ratio, run.execute(t))
  {
    RowOrigin(previous, run, row);
    hide Skips, Stage, RunReport, RatioTells, StageTells;
    t :| WrittenFor(previous, run, row, t);
    StagesTell(if Skips(previous, t) then SKIPPED_RESULT else run.execute(t));
    if Skips(previous, t) {
      SkippedRow(t);
    } else {
      RatiosTell(t, run.execute(t));
    }
  }

  lemma SkippedRow(t: Labelled)
    ensures InferenceRow(t, SKIPPED_RESULT).stage == "NORMAL_END"
    ensures InferenceRow(t, SKIPPED_RESULT).ratio == Percent(100.0)
  {
  }

  lemma {:induction false} SplitTasks(previous: Option<Report>, labelled: seq<Labelled>, t: Labelled)
    ensures t in Todo(previous, labelled) <==> t in labelled && !Skips(previous, t)
    ensures t in SkippedTasks(previous, labelled) <==> t in labelled && Skips(previous, t)
  {
    hide Skips;
    if labelled != [] {
      var init, last := labelled[..|labelled| - 1], labelled[|labelled| - 1];
      assert labelled == init + [last];
      SplitTasks(previous, init, t);
    }
  }

  ghost predicate Ran(previous: Option<Report>, run: Run, t: Labelled) {
    var todo := Todo(previous, LabelTasks(run.tasks));
    exists k | k in Yielded(|todo|, run.completions) :: k < |todo| && todo[k] == t
  }

  /** Every row was written for a task of the run, and says how that task fared. */
  ghost predicate WrittenFor(previous: Option<Report>, run: Run, row: Row, t: Labelled) {
    && t in LabelTasks(run.tasks)
    && if Skips(previous, t) then row == InferenceRow(t, SKIPPED_RESULT)
       else Ran(previous, run, t) && row == InferenceRow(t, run.execute(t))
  }

  lemma RowOrigin(previous: Option<Report>, run: Run, row: Row)
    requires row in RunReport(previous, run).rows
    ensures exists t :: WrittenFor(previous, run, row, t)
  {
    hide Skips, InferenceRow, LabelTasks, Yielded, Todo, SkippedTasks;
    var labelled := LabelTasks(run.tasks);
    var todo, skipped := Todo(previous, labelled), SkippedTasks(previous, labelled);
    var done := Yielded(|todo|, run.completions);
    if row in SkippedRows(skipped) {
      var i :| 0 <= i < |skipped| && row == SkippedRows(skipped)[i];
      SplitTasks(previous, labelled, skipped[i]);
      assert WrittenFor(previous, run, row, skipped[i]);
    } else {
      var i :| 0 <= i < |done| && row == RowsOf(todo, run.execute, done)[i];
      SplitTasks(previous, labelled, todo[done[i]]);
      assert WrittenFor(previous, run, row, todo[done[i]]);
    }
  }

  lemma RowExists(previous: Option<Report>, run: Run, t: Labelled, row: Row)
    requires WrittenFor(previous, run, row, t)
    ensures row in RunReport(previous, run).rows
  {
    hide Skips, InferenceRow, LabelTasks, Yielded, Todo, SkippedTasks;
    var labelled := LabelTasks(run.tasks);
    var todo, skipped := Todo(previous, labelled), SkippedTasks(previous, labelled);
    SplitTasks(previous, labelled, t);
    if Skips(previous, t) {
      var i :| 0 <= i < |skipped| && skipped[i] == t;
      assert SkippedRows(skipped)[i] == row;
    } else {
      var done := Yielded(|todo|, run.completions);
      var k :| k in done && k < |todo| && todo[k] == t;
      var i :| 0 <= i < |done| && done[i] == k;
      assert RowsOf(todo, run.execute, done)[i] == row;
    }
  }

  // ---------------------------------------------------------------- the manifest

  lemma {:induction false} ManifestEntries(labelled: seq<Labelled>, tag: string)
    ensures tag in Manifest(labelled) <==> exists t :: t in labelled && t.tag == tag
    ensures tag in Manifest(labelled) ==>
      exists t :: t in labelled && t.tag == tag && t.task.fingerprint == Manifest(labelled)[tag]
  {
    if labelled != [] {
      var init, last := labelled[..|labelled| - 1], labelled[|labelled| - 1];
      assert labelled == init + [last];
      ManifestEntries(init, tag);
    }
  }

  lemma {:induction false} ManifestOf(labelled: seq<Labelled>, t: Labelled)
    requires DistinctTags(labelled) && t in labelled
    ensures t.tag in Manifest(labelled) && Manifest(labelled)[t.tag] == t.task.fingerprint
  {
    hide Manifest;
    ManifestEntries(labelled, t.tag);
    var u :| u in labelled && u.tag == t.tag && u.task.fingerprint == Manifest(labelled)[t.tag];
    SameTagSameTask(labelled, t, u);
  }

  lemma SameTagSameTask(labelled: seq<Labelled>, t: Labelled, u: Labelled)
    requires DistinctTags(labelled) && t in labelled && u in labelled && t.tag == u.tag
    ensures t == u
  {
    var i :| 0 <= i < |labelled| && labelled[i] == t;
    var j :| 0 <= j < |labelled| && labelled[j] == u;
    assert i == j;
  }

  // ---------------------------------------------------------------- one resumption

  /** No two tasks of the run look alike to the index, which strips the tags it reads. */
  ghost predicate TagsApart(labelled: seq<Labelled>) {
    && DistinctTags(labelled)
    && forall t, u | t in labelled && u in labelled && Strip(t.tag) == Strip(u.tag) :: t == u
  }

  ghost predicate PassedIn(previous: Option<Report>, run: Run, t: Labelled) {
    t in LabelTasks(run.tasks) && !Skips(previous, t) && Ran(previous, run, t) && FullPass(run.execute(t))
  }

  /** The run itself skipped the task, or executed it and passed it in full. */
  ghost predicate Settled(previous: Option<Report>, run: Run, t: Labelled) {
    t in LabelTasks(run.tasks) && (Skips(previous, t) || PassedIn(previous, run, t))
  }

  /** The same configuration under the same tag: a tag, a fingerprint and a path. */
  ghost predicate SameTask(t: Labelled, u: Labelled) {
    t.tag == u.tag && t.task.fingerprint == u.task.fingerprint && t.task.modelPath == u.task.modelPath
  }

  lemma WrittenIsGood(previous: Option<Report>, run: Run, row: Row, u: Labelled, t: Labelled)
    requires WrittenFor(previous, run, row, u)
    ensures Good(row, t) <==> u.task.modelPath == t.task.modelPath && Settled(previous, run, u)
    ensures row.model == u.tag
  {
    hide Skips, LabelTasks, Good, FullPass, Ran;
    RowIsGood(u, SKIPPED_RESULT, t);
    RowIsGood(u, run.execute(u), t);
  }

  /** A task that the next run skips was settled by this one. */
  lemma SkipIsSettled(previous: Option<Report>, run: Run, t: Labelled)
    requires TagsApart(LabelTasks(run.tasks)) && Skips(Some(RunReport(previous, run)), t)
    ensures exists u :: SameTask(t, u) && Settled(previous, run, u)
  {
    hide Good, LabelTasks, Strip, Manifest, Settled, Matching, Ran;
    var report, labelled := RunReport(previous, run), LabelTasks(run.tasks);
    var matching := Matching(report.rows, t.tag);
    assert Skips(Some(report), t);
    var row := matching[0];
    assert row in matching && Good(row, t);
    MatchingRows(report.rows, t.tag, row);
    RowOrigin(previous, run, row);
    var u :| WrittenFor(previous, run, row, u);
    WrittenIsGood(previous, run, row, u, t);
    ManifestEntries(labelled, t.tag);
    var v :| v in labelled && v.tag == t.tag && v.task.fingerprint == report.fingerprints.value[t.tag];
    StripTrims(u.tag);
    StripTrims(t.tag);
    assert Strip(v.tag) == Strip(u.tag);
    assert SameTask(t, u);
  }

  /** And a settled task is skipped by the next run, if its name has no white space around it. */
  lemma SettledIsSkipped(previous: Option<Report>, run: Run, t: Labelled, u: Labelled)
    requires TagsApart(LabelTasks(run.tasks)) && Trimmed(t.tag) && SameTask(t, u) && Settled(previous, run, u)
    ensures Skips(Some(RunReport(previous, run)), t)
  {
    hide Good, LabelTasks, Strip, Manifest, Matching, Ran, FullPass, InferenceRow;
    var report, labelled := RunReport(previous, run), LabelTasks(run.tasks);
    var matching := Matching(report.rows, t.tag);
    ManifestOf(labelled, u);
    StripTrims(t.tag);
    forall row | row in matching
      ensures Good(row, t)
    {
      MatchingRows(report.rows, t.tag, row);
      RowOrigin(previous, run, row);
      var w :| WrittenFor(previous, run, row, w);
      WrittenIsGood(previous, run, row, w, t);
      assert Strip(w.tag) == Strip(u.tag);
    }
    var own := if Skips(previous, u) then InferenceRow(u, SKIPPED_RESULT) else InferenceRow(u, run.execute(u));
    assert WrittenFor(previous, run, own, u);
    WrittenIsGood(previous, run, own, u, t);
    RowExists(previous, run, u, own);
    MatchingRows(report.rows, t.tag, own);
  }

  // ---------------------------------------------------------------- any number of resumptions

  /** One run of a family, resuming from the report of an earlier one or from nothing. */
  datatype Step = Step(run: Run, resumeFrom: Option<nat>)

  ghost predicate StepsOk(steps: seq<Step>) {
    forall i | 0 <= i < |steps| :: steps[i].resumeFrom.Some? ==> steps[i].resumeFrom.value < i
  }

  ghost predicate StepsApart(steps: seq<Step>) {
    forall i | 0 <= i < |steps| :: TagsApart(LabelTasks(steps[i].run.tasks))
  }

  ghost function Previous(steps: seq<Step>, i: nat): Option<Report>
    requires StepsOk(steps) && i < |steps|
    decreases i, 0
  {
    if steps[i].resumeFrom.None? then None else Some(ReportOf(steps, steps[i].resumeFrom.value))
  }

  ghost function ReportOf(steps: seq<Step>, i: nat): Report
    requires StepsOk(steps) && i < |steps|
    decreases i, 1
  {
    RunReport(Previous(steps, i), steps[i].run)
  }

  ghost predicate PassedAt(steps: seq<Step>, i: nat, t: Labelled)
    requires StepsOk(steps) && i < |steps|
  {
    exists u :: SameTask(t, u) && PassedIn(Previous(steps, i), steps[i].run, u)
  }

  /** Following the reports back from run `i`, every run planned the task until one passed it in full. */
  ghost predicate Certified(steps: seq<Step>, i: nat, t: Labelled)
    requires StepsOk(steps) && i < |steps|
    decreases i
  {
    && (exists u :: SameTask(t, u) && u in LabelTasks(steps[i].run.tasks))
    && (PassedAt(steps, i, t) || (steps[i].resumeFrom.Some? && Certified(steps, steps[i].resumeFrom.value, t)))
  }

  lemma SkipsSame(previous: Option<Report>, t: Labelled, u: Labelled)
    requires SameTask(t, u)
    ensures Skips(previous, t) <==> Skips(previous, u)
  {
  }

  /**
   Over every family of runs, a task would be skipped on the strength of run `i` exactly when it is
   certified there: the index never forgets a success and never invents one.
   */
  lemma {:induction false} SkippedExactlyWhenCertified(steps: seq<Step>, i: nat, t: Labelled)
    requires StepsOk(steps) && StepsApart(steps) && i < |steps| && Trimmed(t.tag)
    ensures Skips(Some(ReportOf(steps, i)), t) <==> Certified(steps, i, t)
    decreases i
  {
    hide Skips, LabelTasks, RunReport, TagsApart, Trimmed, Ran, FullPass;
    var previous, run := Previous(steps, i), steps[i].run;
    if steps[i].resumeFrom.Some? { SkippedExactlyWhenCertified(steps, steps[i].resumeFrom.value, t); }
    NothingSkipsWithoutReport(t);
    assert Skips(previous, t) <==> steps[i].resumeFrom.Some? && Certified(steps, steps[i].resumeFrom.value, t);
    if Skips(Some(RunReport(previous, run)), t) {
      SkipIsSettled(previous, run, t);
      var u :| SameTask(t, u) && Settled(previous, run, u);
      SkipsSame(previous, t, u);
    }
    if Certified(steps, i, t) {
      CertifiedIsSettled(steps, i, t);
      var u :| SameTask(t, u) && Settled(previous, run, u);
      SettledIsSkipped(previous, run, t, u);
    }
  }

  lemma NothingSkipsWithoutReport(t: Labelled)
    ensures !Skips(None, t)
  {
  }

  lemma {:induction false} CertifiedIsSettled(steps: seq<Step>, i: nat, t: Labelled)
    requires StepsOk(steps) && i < |steps| && Certified(steps, i, t)
    requires Skips(Previous(steps, i), t) <==>
      steps[i].resumeFrom.Some? && Certified(steps, steps[i].resumeFrom.value, t)
    ensures exists u :: SameTask(t, u) && Settled(Previous(steps, i), steps[i].run, u)
  {
    hide Skips, LabelTasks, RunReport, TagsApart, Ran, FullPass, ReportOf, Previous;
    var previous, run := Previous(steps, i), steps[i].run;
    if PassedAt(steps, i, t) {
      var u :| SameTask(t, u) && PassedIn(previous, run, u);
      assert Settled(previous, run, u);
    } else {
      var u :| SameTask(t, u) && u in LabelTasks(run.tasks);
      SkipsSame(previous, t, u);
      assert Settled(previous, run, u);
    }
  }

  lemma {:induction false} CertifiedWasPassed(steps: seq<Step>, i: nat, t: Labelled)
    requires StepsOk(steps) && i < |steps| && Certified(steps, i, t)
    ensures exists j: nat :: j <= i && PassedAt(steps, j, t)
    decreases i
  {
    hide PassedAt;
    if !PassedAt(steps, i, t) { CertifiedWasPassed(steps, steps[i].resumeFrom.value, t); }
  }

  /** Every skipped task was executed by an earlier run, with the same fingerprint, and passed in full. */
  lemma {:induction false} SkippedWasPassed(steps: seq<Step>, i: nat, t: Labelled)
    requires StepsOk(steps) && StepsApart(steps) && i < |steps|
    requires t in LabelTasks(steps[i].run.tasks) && Trimmed(t.tag) && Skips(Previous(steps, i), t)
    ensures exists j: nat :: j < i && PassedAt(steps, j, t)
  {
    hide Skips, LabelTasks, RunReport, TagsApart, Trimmed, Certified, PassedAt;
    NothingSkipsWithoutReport(t);
    var from := steps[i].resumeFrom.value;
    SkippedExactlyWhenCertified(steps, from, t);
    CertifiedWasPassed(steps, from, t);
  }

  // ---------------------------------------------------------------- when tags are apart

  /** Names that do not start with white space, and digits that tell configurations apart, are enough. */
  lemma {:induction false} OrdinaryTagsAreApart(tasks: seq<Task>)
    requires AllOk(tasks)
    requires forall i | 0 <= i < |tasks| :: !IsSpace(tasks[i].base[0])
    requires forall t, u | t in Dedupe(tasks) && u in Dedupe(tasks) :: !PrefixClash(t, u)
    ensures TagsApart(LabelTasks(tasks)) && forall t | t in LabelTasks(tasks) :: Trimmed(t.tag)
  {
    hide Dedupe, Strip, Trimmed, PrefixClash, DistinctTags;
    var labelled := LabelTasks(tasks);
    TagsAreDistinct(tasks);
    DedupeKeepsOneEach(tasks);
    forall t | t in labelled
      ensures Trimmed(t.tag) && Strip(t.tag) == t.tag
    {
      assert t.task in Dedupe(tasks) && t.task in tasks;
      OrdinaryTag(t.task, Dedupe(tasks));
      StripTrims(t.tag);
    }
    forall t, u | t in labelled && u in labelled && Strip(t.tag) == Strip(u.tag)
      ensures t == u
    {
      SameTagSameTask(labelled, t, u);
    }
  }

  lemma OrdinaryTag(t: Task, tasks: seq<Task>)
    requires TaskOk(t) && !IsSpace(t.base[0])
    ensures Trimmed(Tag(t, tasks))
  {
    var tag := Tag(t, tasks);
    assert tag[0] == t.base[0] && (tag[|tag| - 1] == ']' || tag[|tag| - 1] == t.fingerprint[11]);
  }

  // ---------------------------------------------------------------- exactly when resuming is safe

  /** Batches planned one after the other, where equal fingerprints mean equal paths. */
  ghost predicate FamilyOk(batches: seq<seq<Task>>) {
    && (forall i | 0 <= i < |batches| :: DistinctTags(LabelTasks(batches[i])))
    && forall i, j, t, u | 0 <= i < |batches| && 0 <= j < |batches| && t in LabelTasks(batches[i])
         && u in LabelTasks(batches[j]) && t.task.fingerprint == u.task.fingerprint ::
         t.task.modelPath == u.task.modelPath
  }

  /** Runs of these batches, executed and resumed in any way. */
  ghost predicate RunsOf(steps: seq<Step>, batches: seq<seq<Task>>) {
    StepsOk(steps) && |steps| == |batches| && forall i | 0 <= i < |steps| :: steps[i].run.tasks == batches[i]
  }

  ghost predicate EarnedBefore(steps: seq<Step>, i: nat, t: Labelled)
    requires StepsOk(steps) && i < |steps|
  {
    exists j: nat :: j < i && PassedAt(steps, j, t)
  }

  /** However the runs go and resume from one another, what is skipped was executed before and passed in full. */
  ghost predicate SkipsAreEarned(batches: seq<seq<Task>>) {
    forall steps, i: nat, t | RunsOf(steps, batches) && i < |steps| && t in LabelTasks(batches[i])
      && Skips(Previous(steps, i), t) :: EarnedBefore(steps, i, t)
  }

  /** A tag that white space makes look like another one, for the same model. */
  ghost predicate LooksLike(u: Labelled, v: Labelled) {
    u != v && Strip(u.tag) == v.tag && u.task.modelPath == v.task.modelPath
  }

  /** Batch `i` has two tasks of which one looks like the other, and that one is planned again in batch `j`. */
  ghost predicate Confusion(batches: seq<seq<Task>>, i: nat, j: nat, u: Labelled, v: Labelled) {
    && i < j < |batches| && u in LabelTasks(batches[i]) && v in LabelTasks(batches[i]) && LooksLike(u, v)
    && exists w :: w in LabelTasks(batches[j]) && SameTask(v, w)
  }

  /**
   Exactly which families of batches are safe to resume. The index strips the tags it reads but not the
   ones it looks up, so a task can be skipped because of another that has white space before its name.
   */
  lemma SafeToResume(batches: seq<seq<Task>>)
    requires FamilyOk(batches)
    ensures SkipsAreEarned(batches) <==> forall i: nat, j: nat, u, v :: !Confusion(batches, i, j, u, v)
  {
    hide LabelTasks, Skips, RunReport, FamilyOk, Confusion, EarnedBefore;
    forall i: nat, j: nat, u, v | Confusion(batches, i, j, u, v)
      ensures !SkipsAreEarned(batches)
    {
      FalseSkip(batches, i, j, u, v);
    }
    if forall i: nat, j: nat, u, v :: !Confusion(batches, i, j, u, v) {
      forall steps, i: nat, t | RunsOf(steps, batches) && i < |steps| && t in LabelTasks(batches[i])
        && Skips(Previous(steps, i), t)
        ensures EarnedBefore(steps, i, t)
      {
        SkipIsEarned(batches, steps, i, t);
      }
    }
  }

  lemma {:induction false} SkipIsEarned(batches: seq<seq<Task>>, steps: seq<Step>, i: nat, t: Labelled)
    requires FamilyOk(batches) && RunsOf(steps, batches) && i < |steps|
    requires forall i: nat, j: nat, u, v :: !Confusion(batches, i, j, u, v)
    requires t in LabelTasks(batches[i]) && Skips(Previous(steps, i), t)
    ensures EarnedBefore(steps, i, t)
  {
    hide LabelTasks, Skips, RunReport, FamilyOk, Confusion;
    NothingSkipsWithoutReport(t);
    EarnedByReport(batches, steps, steps[i].resumeFrom.value, i, t);
  }

  lemma {:induction false} EarnedByReport(batches: seq<seq<Task>>, steps: seq<Step>, i: nat, j: nat, t: Labelled)
    requires FamilyOk(batches) && RunsOf(steps, batches) && i < j < |steps|
    requires forall i: nat, j: nat, u, v :: !Confusion(batches, i, j, u, v)
    requires t in LabelTasks(batches[j]) && Skips(Some(ReportOf(steps, i)), t)
    ensures exists k: nat :: k <= i && PassedAt(steps, k, t)
    decreases i
  {
    hide LabelTasks, Skips, RunReport, Confusion, LooksLike, FamilyOk, Ran, FullPass;
    var previous, run := Previous(steps, i), steps[i].run;
    var u, v := WhoVouches(previous, run, t);
    SamePath(batches, i, j, v, t);
    assert !Confusion(batches, i, j, u, v);
    NotConfused(batches, i, j, u, v, t);
    if Skips(previous, v) {
      NothingSkipsWithoutReport(v);
      var from := steps[i].resumeFrom.value;
      EarnedByReport(batches, steps, from, i, v);
      var k: nat :| k <= from && PassedAt(steps, k, v);
      assert PassedAt(steps, k, t);
    } else {
      assert PassedIn(previous, run, v) && PassedAt(steps, i, t);
    }
  }

  /** The row that makes a task skipped was written for `u`, and the manifest entry for `v`. */
  lemma WhoVouches(previous: Option<Report>, run: Run, t: Labelled) returns (u: Labelled, v: Labelled)
    requires Skips(Some(RunReport(previous, run)), t)
    ensures Settled(previous, run, u) && Strip(u.tag) == t.tag && u.task.modelPath == t.task.modelPath
    ensures v in LabelTasks(run.tasks) && v.tag == t.tag && v.task.fingerprint == t.task.fingerprint
  {
    hide Good, LabelTasks, Strip, Manifest, Settled, Matching, Ran;
    var report, labelled := RunReport(previous, run), LabelTasks(run.tasks);
    var matching := Matching(report.rows, t.tag);
    assert Skips(Some(report), t);
    var row := matching[0];
    assert row in matching && Good(row, t);
    MatchingRows(report.rows, t.tag, row);
    RowOrigin(previous, run, row);
    u :| WrittenFor(previous, run, row, u);
    WrittenIsGood(previous, run, row, u, t);
    ManifestEntries(labelled, t.tag);
    v :| v in labelled && v.tag == t.tag && v.task.fingerprint == report.fingerprints.value[t.tag];
  }

  lemma SamePath(batches: seq<seq<Task>>, i: nat, j: nat, v: Labelled, t: Labelled)
    requires FamilyOk(batches) && i < |batches| && j < |batches|
    requires v in LabelTasks(batches[i]) && t in LabelTasks(batches[j]) && v.task.fingerprint == t.task.fingerprint
    ensures v.task.modelPath == t.task.modelPath
  {
    hide LabelTasks, DistinctTags;
  }

  lemma NotConfused(batches: seq<seq<Task>>, i: nat, j: nat, u: Labelled, v: Labelled, t: Labelled)
    requires i < j < |batches| && u in LabelTasks(batches[i]) && v in LabelTasks(batches[i])
    requires t in LabelTasks(batches[j]) && SameTask(v, t) && !Confusion(batches, i, j, u, v)
    requires Strip(u.tag) == v.tag && u.task.modelPath == v.task.modelPath
    ensures u == v
  {
    hide LabelTasks, Strip;
  }

  /** Runs of which `i` executes only its task number `k`, `j` resumes from it, and the others do nothing. */
  ghost function FalseFamily(batches: seq<seq<Task>>, i: nat, j: nat, k: nat): seq<Step> {
    seq(|batches|, n requires 0 <= n < |batches| =>
      Step(if n == i then OneTaskRun(batches[n], k) else OneTaskRun(batches[n], k).(completions := []),
           if n == j then Some(i) else None))
  }

  lemma FalseSkip(batches: seq<seq<Task>>, i: nat, j: nat, u: Labelled, v: Labelled)
    requires FamilyOk(batches) && Confusion(batches, i, j, u, v)
    ensures !SkipsAreEarned(batches)
  {
    hide LabelTasks, Skips, RunReport, DistinctTags, Strip, SkipsAreEarned, PassedAt, Ran;
    var k :| 0 <= k < |LabelTasks(batches[i])| && LabelTasks(batches[i])[k] == u;
    var w :| w in LabelTasks(batches[j]) && SameTask(v, w);
    var steps := FalseFamily(batches, i, j, k);
    if u.tag == v.tag { SameTagSameTask(LabelTasks(batches[i]), u, v); }
    assert RunsOf(steps, batches);
    assert Previous(steps, i) == None && Previous(steps, j) == Some(RunReport(None, steps[i].run));
    SkipFromOneRow(steps[i].run, u, v, k);
    SkipsSame(Previous(steps, j), v, w);
    forall n: nat | n < j
      ensures !PassedAt(steps, n, w)
    {
      NeverPassed(batches, i, j, k, n, w, u);
    }
    Refute(batches, steps, j, w);
  }

  lemma {:induction false} Refute(batches: seq<seq<Task>>, steps: seq<Step>, j: nat, w: Labelled)
    requires RunsOf(steps, batches) && j < |steps| && w in LabelTasks(batches[j])
    requires Skips(Previous(steps, j), w) && !EarnedBefore(steps, j, w)
    ensures !SkipsAreEarned(batches)
  {
    hide LabelTasks, Skips, RunReport, EarnedBefore, RunsOf;
  }

  lemma NeverPassed(batches: seq<seq<Task>>, i: nat, j: nat, k: nat, n: nat, w: Labelled, u: Labelled)
    requires i < j < |batches| && n < j && StepsOk(FalseFamily(batches, i, j, k))
    requires k < |LabelTasks(batches[i])| && LabelTasks(batches[i])[k] == u && w.tag != u.tag
    ensures !PassedAt(FalseFamily(batches, i, j, k), n, w)
  {
    hide LabelTasks, Skips, RunReport, Ran, FullPass;
    var steps := FalseFamily(batches, i, j, k);
    assert Previous(steps, n) == None;
    forall x | SameTask(w, x)
      ensures !Ran(None, steps[n].run, x)
    {
      if n == i { NotRun(steps[n].run, x, k); } else { NothingRun(steps[n].run, x); }
    }
  }

  lemma NothingRun(run: Run, x: Labelled)
    requires run.completions == []
    ensures !Ran(None, run, x)
  {
  }

  ghost function OneTaskRun(tasks: seq<Task>, k: nat): Run { Run(tasks, t => TaskResult(Passed, Complete, 1, 1), [k]) }

  lemma SkipFromOneRow(run: Run, u: Labelled, v: Labelled, k: nat)
    requires DistinctTags(LabelTasks(run.tasks)) && v in LabelTasks(run.tasks) && LooksLike(u, v)
    requires k < |LabelTasks(run.tasks)| && LabelTasks(run.tasks)[k] == u && run == OneTaskRun(run.tasks, k)
    ensures Skips(Some(RunReport(None, run)), v)
  {
    hide Good, LabelTasks, Strip, Manifest, Matching, InferenceRow, RunReport, FullPass;
    var row := InferenceRow(u, run.execute(u));
    OneRow(run, u, k);
    RowIsGood(u, run.execute(u), v);
    FullPassMeans(run.execute(u));
    RowModel(u, run.execute(u));
    MatchingOne(row, v.tag);
    ManifestOf(LabelTasks(run.tasks), v);
  }

  lemma RowModel(u: Labelled, r: TaskResult)
    ensures InferenceRow(u, r).model == u.tag
  {
  }

  lemma NotRun(run: Run, v: Labelled, k: nat)
    requires k < |LabelTasks(run.tasks)| && LabelTasks(run.tasks)[k] != v && run.completions == [k]
    ensures !Ran(None, run, v)
  {
    hide LabelTasks, Yielded, Todo;
    NothingToSkip(LabelTasks(run.tasks));
    OnlyOneYielded(|LabelTasks(run.tasks)|, k);
  }

  lemma {:induction false} NothingToSkip(labelled: seq<Labelled>)
    ensures Todo(None, labelled) == labelled && SkippedTasks(None, labelled) == []
  {
    if labelled != [] { NothingToSkip(labelled[..|labelled| - 1]); }
  }

  lemma {:induction false} OnlyOneYielded(count: nat, k: nat)
    requires k < count
    ensures Yielded(count, [k]) == [k]
  {
    assert [k][..0] == [];
  }

  lemma OneRow(run: Run, u: Labelled, k: nat)
    requires k < |LabelTasks(run.tasks)| && LabelTasks(run.tasks)[k] == u && run.completions == [k]
    ensures RunReport(None, run) == Report(Some(Manifest(LabelTasks(run.tasks))), [InferenceRow(u, run.execute(u))])
  {
    hide LabelTasks, InferenceRow, Manifest, Yielded;
    NothingToSkip(LabelTasks(run.tasks));
    OnlyOneYielded(|LabelTasks(run.tasks)|, k);
  }

  lemma {:induction false} MatchingOne(row: Row, tag: string)
    requires Strip(row.model) == tag
    ensures Matching([row], tag) == [row]
  {
    assert [row][..0] == [];
  }
}
