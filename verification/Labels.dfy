/** The report tags of a batch of tasks: one execution per configuration, one tag per execution. */
module Labels {

  /** A planned task: the hash of its whole configuration, and the two parts of it that reports show. */
  datatype Task = Task(fingerprint: string, base: string, modelPath: string)

  datatype Labelled = Labelled(task: Task, tag: string)

  predicate IsHex(c: char) { '0' <= c <= '9' || 'a' <= c <= 'f' }

  /** Fingerprints are hex digests and inference tags end with the parallelism in brackets. */
  predicate TaskOk(t: Task) {
    && |t.fingerprint| == 64 && (forall i | 0 <= i < 64 :: IsHex(t.fingerprint[i]))
    && |t.base| > 0 && t.base[|t.base| - 1] == ']'
  }

  predicate AllOk(tasks: seq<Task>) { forall i | 0 <= i < |tasks| :: TaskOk(tasks[i]) }

  /** Inserting into a dictionary keyed by fingerprint: an old key keeps its place and takes the new value. */
  function DictInsert(tasks: seq<Task>, t: Task): seq<Task> {
    if tasks == [] then [t]
    else if tasks[0].fingerprint == t.fingerprint then [t] + tasks[1..]
    else [tasks[0]] + DictInsert(tasks[1..], t)
  }

  function Dedupe(tasks: seq<Task>): seq<Task> {
    if tasks == [] then [] else DictInsert(Dedupe(tasks[..|tasks| - 1]), tasks[|tasks| - 1])
  }

  function Count(base: string, tasks: seq<Task>): nat {
    if tasks == [] then 0 else (if tasks[0].base == base then 1 else 0) + Count(base, tasks[1..])
  }

  function Prefix12(fingerprint: string): string { if |fingerprint| <= 12 then fingerprint else fingerprint[..12] }

  function Tag(t: Task, tasks: seq<Task>): string {
    if Count(t.base, tasks) > 1 then t.base + "#" + Prefix12(t.fingerprint) else t.base
  }

  function LabelTasks(tasks: seq<Task>): seq<Labelled> {
    var distinct := Dedupe(tasks);
    seq(|distinct|, i requires 0 <= i < |distinct| => Labelled(distinct[i], Tag(distinct[i], distinct)))
  }

  // ---------------------------------------------------------------- deduplication

  ghost predicate DistinctFingerprints(tasks: seq<Task>) {
    forall i, j | 0 <= i < j < |tasks| :: tasks[i].fingerprint != tasks[j].fingerprint
  }

  ghost predicate HasFingerprint(tasks: seq<Task>, fingerprint: string) {
    exists t :: t in tasks && t.fingerprint == fingerprint
  }

  lemma {:induction false} InsertKeys(tasks: seq<Task>, t: Task, fingerprint: string)
    ensures HasFingerprint(DictInsert(tasks, t), fingerprint) <==>
      HasFingerprint(tasks, fingerprint) || fingerprint == t.fingerprint
    ensures forall u | u in DictInsert(tasks, t) :: u in tasks || u == t
  {
    if tasks == [] {
      assert t in DictInsert(tasks, t);
    } else {
      var rest := tasks[1..];
      InsertKeys(rest, t, fingerprint);
      assert tasks == [tasks[0]] + rest;
      HasConcat(tasks[0], rest, fingerprint);
      HasConcat(t, rest, fingerprint);
      HasConcat(tasks[0], DictInsert(rest, t), fingerprint);
    }
  }

  lemma HasConcat(head: Task, tail: seq<Task>, fingerprint: string)
    ensures HasFingerprint([head] + tail, fingerprint) <==>
      head.fingerprint == fingerprint || HasFingerprint(tail, fingerprint)
  {
    assert head in [head] + tail;
    assert forall t | t in tail :: t in [head] + tail;
  }

  lemma {:induction false} InsertDistinct(tasks: seq<Task>, t: Task)
    requires DistinctFingerprints(tasks)
    ensures DistinctFingerprints(DictInsert(tasks, t))
  {
    if tasks != [] && tasks[0].fingerprint != t.fingerprint {
      var rest := tasks[1..];
      InsertDistinct(rest, t);
      InsertKeys(rest, t, tasks[0].fingerprint);
      assert !HasFingerprint(rest, tasks[0].fingerprint);
      var after := DictInsert(rest, t);
      assert forall j | 0 <= j < |after| :: after[j] in after;
    }
  }

  /** Exactly one task is kept for each configuration, and it is one of those given. */
  lemma {:induction false} DedupeKeepsOneEach(tasks: seq<Task>)
    ensures DistinctFingerprints(Dedupe(tasks))
    ensures forall t | t in Dedupe(tasks) :: t in tasks
    ensures forall t | t in tasks :: HasFingerprint(Dedupe(tasks), t.fingerprint)
  {
    if tasks != [] {
      var init, last := tasks[..|tasks| - 1], tasks[|tasks| - 1];
      DedupeKeepsOneEach(init);
      InsertDistinct(Dedupe(init), last);
      assert tasks == init + [last];
      forall t | t in tasks
        ensures HasFingerprint(Dedupe(tasks), t.fingerprint)
      {
        InsertKeys(Dedupe(init), last, t.fingerprint);
      }
      InsertKeys(Dedupe(init), last, last.fingerprint);
    }
  }

  // ---------------------------------------------------------------- distinct tags

  lemma {:induction false} CountOne(base: string, tasks: seq<Task>, i: nat)
    requires i < |tasks| && tasks[i].base == base
    ensures Count(base, tasks) >= 1
  {
    if i > 0 { CountOne(base, tasks[1..], i - 1); }
  }

  lemma {:induction false} CountTwo(base: string, tasks: seq<Task>, i: nat, j: nat)
    requires i < j < |tasks| && tasks[i].base == base && tasks[j].base == base
    ensures Count(base, tasks) >= 2
  {
    if i == 0 { CountOne(base, tasks[1..], j - 1); } else { CountTwo(base, tasks[1..], i - 1, j - 1); }
  }

  lemma TagsOfDifferentBases(t: Task, u: Task, tasks: seq<Task>)
    requires TaskOk(t) && TaskOk(u) && t.base != u.base
    ensures Tag(t, tasks) != Tag(u, tasks)
  {
    var a, b := Tag(t, tasks), Tag(u, tasks);
    assert a == t.base || (|a| == |t.base| + 13 && a[..|t.base|] == t.base && a[|a| - 1] == t.fingerprint[11]);
    assert b == u.base || (|b| == |u.base| + 13 && b[..|u.base|] == u.base && b[|b| - 1] == u.fingerprint[11]);
  }

  lemma {:induction false} TagsOfSameBase(t: Task, u: Task, tasks: seq<Task>)
    requires TaskOk(t) && TaskOk(u) && t.base == u.base && Count(t.base, tasks) > 1
    ensures Tag(t, tasks) == Tag(u, tasks) <==> Prefix12(t.fingerprint) == Prefix12(u.fingerprint)
  {
    assert Tag(t, tasks)[|t.base| + 1..] == Prefix12(t.fingerprint);
    assert Tag(u, tasks)[|t.base| + 1..] == Prefix12(u.fingerprint);
  }

  ghost predicate DistinctTags(labelled: seq<Labelled>) {
    forall i, j | 0 <= i < j < |labelled| :: labelled[i].tag != labelled[j].tag
  }

  /** Two configurations under one name that the twelve digits in the tag do not tell apart. */
  ghost predicate PrefixClash(t: Task, u: Task) {
    t.fingerprint != u.fingerprint && t.base == u.base && Prefix12(t.fingerprint) == Prefix12(u.fingerprint)
  }

  /** No two rows of a report share a tag, exactly when no two configurations share a name and twelve digits. */
  lemma {:induction false} TagsAreDistinct(tasks: seq<Task>)
    requires AllOk(tasks)
    ensures DistinctTags(LabelTasks(tasks)) <==>
      forall t, u | t in Dedupe(tasks) && u in Dedupe(tasks) :: !PrefixClash(t, u)
  {
    var d, labelled := Dedupe(tasks), LabelTasks(tasks);
    DedupeKeepsOneEach(tasks);
    forall i, j | 0 <= i < j < |d|
      ensures d[i] in d && d[j] in d && (labelled[i].tag == labelled[j].tag <==> PrefixClash(d[i], d[j]))
    {
      PairOfTags(d, i, j);
    }
    forall t, u | t in d && u in d && PrefixClash(t, u)
      ensures !DistinctTags(labelled)
    {
      var i :| 0 <= i < |d| && d[i] == t;
      var j :| 0 <= j < |d| && d[j] == u;
      if i < j {
        assert labelled[i].tag == labelled[j].tag;
      } else {
        assert PrefixClash(d[j], d[i]);
        assert labelled[j].tag == labelled[i].tag;
      }
    }
  }

  lemma PairOfTags(d: seq<Task>, i: nat, j: nat)
    requires DistinctFingerprints(d) && i < j < |d| && TaskOk(d[i]) && TaskOk(d[j])
    ensures Tag(d[i], d) == Tag(d[j], d) <==> PrefixClash(d[i], d[j])
  {
    if d[i].base == d[j].base {
      CountTwo(d[i].base, d, i, j);
      TagsOfSameBase(d[i], d[j], d);
    } else {
      TagsOfDifferentBases(d[i], d[j], d);
    }
  }

  lemma {:induction false} CountAtMostOne(base: string, tasks: seq<Task>, i: nat)
    requires i < |tasks| && tasks[i].base == base && forall j | 0 <= j < |tasks| && j != i :: tasks[j].base != base
    ensures Count(base, tasks) == 1
  {
    if i == 0 { CountNone(base, tasks[1..]); } else { CountAtMostOne(base, tasks[1..], i - 1); }
  }

  lemma {:induction false} CountNone(base: string, tasks: seq<Task>)
    requires forall j | 0 <= j < |tasks| :: tasks[j].base != base
    ensures Count(base, tasks) == 0
  {
    if tasks != [] { CountNone(base, tasks[1..]); }
  }

  /** A tag is the plain name, as in older reports, exactly when no other configuration has that name. */
  lemma {:induction false} PlainTagWhenAlone(tasks: seq<Task>, i: nat)
    requires i < |Dedupe(tasks)|
    ensures LabelTasks(tasks)[i].task == Dedupe(tasks)[i]
    ensures LabelTasks(tasks)[i].tag == Dedupe(tasks)[i].base <==>
      forall j | 0 <= j < |Dedupe(tasks)| && j != i :: Dedupe(tasks)[j].base != Dedupe(tasks)[i].base
  {
    hide Dedupe;
    var d := Dedupe(tasks);
    if j :| 0 <= j < |d| && j != i && d[j].base == d[i].base {
      CountTwo(d[i].base, d, if i < j then i else j, if i < j then j else i);
    } else {
      CountAtMostOne(d[i].base, d, i);
    }
  }

  /** Otherwise it is the name, a number sign and the first twelve digits of the fingerprint. */
  lemma {:induction false} NumberedTag(tasks: seq<Task>, i: nat)
    requires AllOk(tasks) && i < |Dedupe(tasks)| && LabelTasks(tasks)[i].tag != Dedupe(tasks)[i].base
    ensures var tag, t := LabelTasks(tasks)[i].tag, Dedupe(tasks)[i];
      && |tag| == |t.base| + 13 && |t.fingerprint| == 64 && tag[..|t.base|] == t.base && tag[|t.base|] == '#'
      && forall k | 0 <= k < 12 :: tag[|t.base| + 1 + k] == t.fingerprint[k]
  {
    DedupeKeepsOneEach(tasks);
    var d := Dedupe(tasks);
    assert d[i] in d && d[i] in tasks;
  }

  // ---------------------------------------------------------------- the order of the tasks

  ghost predicate IsFirstAt(tasks: seq<Task>, fingerprint: string, i: nat) {
    && i < |tasks| && tasks[i].fingerprint == fingerprint
    && forall j | 0 <= j < i :: tasks[j].fingerprint != fingerprint
  }

  ghost predicate IsLastAt(tasks: seq<Task>, fingerprint: string, i: nat) {
    && i < |tasks| && tasks[i].fingerprint == fingerprint
    && forall j | i < j < |tasks| :: tasks[j].fingerprint != fingerprint
  }

  /** Each kept task is the last one of its configuration, in the place that the first one gave it. */
  ghost predicate Kept(tasks: seq<Task>, d: seq<Task>, first: seq<nat>, last: seq<nat>) {
    && |first| == |last| == |d|
    && (forall i | 0 <= i < |d| :: IsFirstAt(tasks, d[i].fingerprint, first[i]))
    && (forall i | 0 <= i < |d| :: IsLastAt(tasks, d[i].fingerprint, last[i]) && tasks[last[i]] == d[i])
    && (forall i, j | 0 <= i < j < |d| :: first[i] < first[j])
  }

  /** A known configuration is replaced in its place, a new one goes to the end. */
  lemma {:induction false} InsertPlace(d: seq<Task>, t: Task) returns (i: nat)
    ensures i <= |d| && DictInsert(d, t) == if i < |d| then d[i := t] else d + [t]
    ensures i < |d| ==> d[i].fingerprint == t.fingerprint
    ensures forall j | 0 <= j < i :: d[j].fingerprint != t.fingerprint
  {
    if d == [] {
      i := 0;
    } else if d[0].fingerprint == t.fingerprint {
      i := 0;
    } else {
      i := InsertPlace(d[1..], t);
      assert d == [d[0]] + d[1..];
      i := i + 1;
    }
  }

  lemma KeptMore(init: seq<Task>, t: Task, d: seq<Task>, first: seq<nat>, last: seq<nat>, i: nat)
    requires Kept(init, d, first, last) && DistinctFingerprints(d) && i <= |d|
    requires forall u | u in init :: HasFingerprint(d, u.fingerprint)
    requires if i < |d| then d[i].fingerprint == t.fingerprint else !HasFingerprint(d, t.fingerprint)
    ensures i < |d| ==> Kept(init + [t], d[i := t], first, last[i := |init|])
    ensures i == |d| ==> Kept(init + [t], d + [t], first + [|init|], last + [|init|])
  {
    var tasks := init + [t];
    forall k | 0 <= k < |d|
      ensures IsFirstAt(tasks, d[k].fingerprint, first[k])
      ensures k != i ==> IsLastAt(tasks, d[k].fingerprint, last[k]) && tasks[last[k]] == d[k]
    {
      assert d[k] in d;
    }
    if i == |d| {
      assert forall j | 0 <= j < |init| :: init[j] in init;
    }
  }

  lemma NothingKept()
    ensures Kept([], Dedupe([]), [], [])
  {
  }

  /** Exactly the order of first appearance, and the last task of each configuration. */
  lemma {:induction false} DedupeOrder(tasks: seq<Task>) returns (first: seq<nat>, last: seq<nat>)
    ensures |first| == |last| == |Dedupe(tasks)| && Kept(tasks, Dedupe(tasks), first, last)
  {
    hide Kept, IsFirstAt, IsLastAt, DictInsert, DistinctFingerprints;
    first, last := [], [];
    if tasks == [] {
      NothingKept();
    } else {
      var init, t := tasks[..|tasks| - 1], tasks[|tasks| - 1];
      var d := Dedupe(init);
      assert tasks == init + [t];
      first, last := DedupeOrder(init);
      DedupeKeepsOneEach(init);
      var i := InsertPlace(d, t);
      assert i == |d| ==> !HasFingerprint(d, t.fingerprint);
      KeptMore(init, t, d, first, last, i);
      if i < |d| { last := last[i := |init|]; } else { first, last := first + [|init|], last + [|init|]; }
    }
  }
}
