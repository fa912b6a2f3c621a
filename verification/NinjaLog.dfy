/**
 Reading a build log: lines of several builds follow each other, and only the last build counts. A
 new build shows itself by an end time that goes backwards or by a command with other times.
 */
module NinjaLog {
  import opened NinjaSweep

  /** A line that does not have five fields, or its start and end in milliseconds, output name and command hash. */
  datatype Line = Malformed | Entry(start: nat, end: nat, name: string, hash: string)

  function Entries(lines: seq<Line>): seq<Line> {
    if lines == [] then []
    else Entries(lines[..|lines| - 1]) + if lines[|lines| - 1].Entry? then [lines[|lines| - 1]] else []
  }

  /** The lines may be one build: ends in order, and one pair of times per command. */
  ghost predicate Coherent(run: seq<Line>) {
    && (forall j | 0 <= j < |run| :: run[j].Entry?)
    && (forall j, k | 0 <= j < k < |run| :: run[j].end <= run[k].end)
    && (forall j, k | 0 <= j < k < |run| && run[j].hash == run[k].hash ::
         run[j].start == run[k].start && run[j].end == run[k].end)
  }

  /** The last build of a log: it goes on for as long as it stays coherent. */
  ghost function LastBuild(lines: seq<Line>): seq<Line> {
    if lines == [] then []
    else
      var build, line := LastBuild(lines[..|lines| - 1]), lines[|lines| - 1];
      if line.Malformed? then build else if Coherent(build + [line]) then build + [line] else [line]
  }

  ghost function Selected(lines: seq<Line>, showAll: bool): seq<Line> {
    if showAll then Entries(lines) else LastBuild(lines)
  }

  /** Command hashes in the order of their first line. */
  ghost function Hashes(run: seq<Line>): seq<string>
    requires forall j | 0 <= j < |run| :: run[j].Entry?
  {
    if run == [] then []
    else
      var rest, hash := Hashes(run[..|run| - 1]), run[|run| - 1].hash;
      if hash in rest then rest else rest + [hash]
  }

  /** Output names of one command, in log order. */
  ghost function NamesOf(run: seq<Line>, hash: string): seq<string>
    requires forall j | 0 <= j < |run| :: run[j].Entry?
  {
    if run == [] then []
    else NamesOf(run[..|run| - 1], hash) + if run[|run| - 1].hash == hash then [run[|run| - 1].name] else []
  }

  /** The first line of a command. */
  ghost function FirstOf(run: seq<Line>, hash: string): Line
    requires forall j | 0 <= j < |run| :: run[j].Entry?
  {
    if run == [] then Malformed
    else
      var first := FirstOf(run[..|run| - 1], hash);
      if first.Malformed? && run[|run| - 1].hash == hash then run[|run| - 1] else first
  }

  lemma {:induction false} OneMoreLine(rest: seq<Line>, line: Line)
    ensures Entries(rest + [line]) == if line.Entry? then Entries(rest) + [line] else Entries(rest)
    ensures LastBuild(rest + [line]) ==
            if line.Malformed? then LastBuild(rest)
            else if Coherent(LastBuild(rest) + [line]) then LastBuild(rest) + [line]
            else [line]
  {
    assert (rest + [line])[..|rest|] == rest;
  }

  lemma {:induction false} EntriesAreEntries(lines: seq<Line>)
    ensures forall j | 0 <= j < |Entries(lines)| :: Entries(lines)[j].Entry?
  {
    if lines != [] { EntriesAreEntries(lines[..|lines| - 1]); }
  }

  lemma {:induction false} LastBuildIsCoherent(lines: seq<Line>)
    ensures Coherent(LastBuild(lines))
  {
    if lines != [] { LastBuildIsCoherent(lines[..|lines| - 1]); }
  }

  /** Malformed lines do not matter. */
  lemma {:induction false} BuildOfEntries(lines: seq<Line>)
    ensures LastBuild(Entries(lines)) == LastBuild(lines)
  {
    if lines != [] {
      var rest, line := lines[..|lines| - 1], lines[|lines| - 1];
      assert lines == rest + [line];
      BuildOfEntries(rest);
      OneMoreLine(rest, line);
      OneMoreLine(Entries(rest), line);
    }
  }

  /** The last build is a suffix of the well-formed lines, and the build before it could not have gone on. */
  lemma {:induction false} LastBuildIsSuffix(lines: seq<Line>) returns (k: nat)
    ensures k <= |Entries(lines)| && LastBuild(lines) == Entries(lines)[k..] && Coherent(LastBuild(lines))
    ensures Entries(lines) != [] ==> k < |Entries(lines)|
    ensures 0 < k ==> !Coherent(LastBuild(Entries(lines)[..k]) + [Entries(lines)[k]])
  {
    hide Coherent;
    k := 0;
    LastBuildIsCoherent(lines);
    if lines != [] {
      var rest, line := lines[..|lines| - 1], lines[|lines| - 1];
      assert lines == rest + [line];
      k := LastBuildIsSuffix(rest);
      OneMoreLine(rest, line);
      if line.Entry? && Coherent(LastBuild(rest) + [line]) {
        if 0 < k { assert Entries(lines)[..k] == Entries(rest)[..k] && Entries(lines)[k] == Entries(rest)[k]; }
      } else if line.Entry? {
        k := |Entries(rest)|;
        assert Entries(lines)[..k] == Entries(rest);
        BuildOfEntries(rest);
      }
    }
  }

  lemma SuffixIsCoherent(run: seq<Line>, j: nat)
    requires j <= |run| && Coherent(run)
    ensures Coherent(run[j..])
  {
  }

  // ---------------------------------------------------------------- where the last build begins

  /** The first test of the loop: the line's end lies before that of the line above it. */
  predicate GoesBack(entries: seq<Line>, n: nat) {
    0 < n < |entries| && entries[n - 1].Entry? && entries[n].Entry? && entries[n].end < entries[n - 1].end
  }

  predicate OtherTimes(a: Line, b: Line) {
    a.Entry? && b.Entry? && a.hash == b.hash && (a.start != b.start || a.end != b.end)
  }

  /** The second test: the command of line `n` occurs in lines `from` to `to` with other times. */
  predicate Retimed(entries: seq<Line>, n: nat, from: nat, to: nat) {
    n < |entries| && exists j | from <= j < to && j < |entries| :: OtherTimes(entries[j], entries[n])
  }

  /** The line at which the loop starts over for the last time, by either test. */
  function LastReset(entries: seq<Line>): (k: nat)
    ensures k <= |entries| && (entries != [] ==> k < |entries|)
  {
    if |entries| <= 1 then 0
    else
      var n := |entries| - 1;
      var k := LastReset(entries[..n]);
      if GoesBack(entries, n) || Retimed(entries, n, k, n) then n else k
  }

  /** One more line goes on with a build exactly if it passes both tests. */
  lemma GoesOn(entries: seq<Line>, n: nat, k: nat)
    requires k < n < |entries| && entries[n].Entry? && Coherent(entries[k..n])
    ensures Coherent(entries[k..n + 1]) <==> !GoesBack(entries, n) && !Retimed(entries, n, k, n)
  {
    var run, run' := entries[k..n], entries[k..n + 1];
    assert forall j | k <= j < n :: run[j - k] == entries[j] && run'[j - k] == entries[j];
    assert run'[n - k] == entries[n] && run[n - 1 - k] == entries[n - 1];
    if Coherent(run') {
      forall j | k <= j < n
        ensures !OtherTimes(entries[j], entries[n])
      {
        assert run'[j - k] == entries[j];
      }
    } else if !GoesBack(entries, n) && !Retimed(entries, n, k, n) {
      forall i, j | 0 <= i < j < |run'|
        ensures run'[i].Entry? && run'[j].Entry? && run'[i].end <= run'[j].end
        ensures run'[i].hash == run'[j].hash ==> run'[i].start == run'[j].start && run'[i].end == run'[j].end
      {
        assert run[i] == run'[i];
        if j < n - k { assert run[j] == run'[j]; } else { assert !OtherTimes(entries[k + i], entries[n]); }
      }
    }
  }

  lemma {:induction false} ResetOrNot(rest: seq<Line>, line: Line)
    requires rest != []
    ensures var entries, n, k := rest + [line], |rest|, LastReset(rest);
      LastReset(entries) == if GoesBack(entries, n) || Retimed(entries, n, k, n) then n else k
  {
    hide GoesBack, Retimed;
    assert (rest + [line])[..|rest|] == rest;
  }

  /** The build goes on with one more line, or begins anew with it. */
  lemma {:induction false} BuildMore(rest: seq<Line>, line: Line)
    requires rest != [] && line.Entry? && LastBuild(rest) == rest[LastReset(rest)..]
    ensures LastBuild(rest + [line]) == (rest + [line])[LastReset(rest + [line])..]
  {
    hide LastBuild, LastReset, Coherent, GoesBack, Retimed;
    var entries, n, k := rest + [line], |rest|, LastReset(rest);
    OneMoreLine(rest, line);
    LastBuildIsCoherent(rest);
    ResetOrNot(rest, line);
    assert entries[k..n] == rest[k..] && entries[n..] == [line];
    assert entries[k..n + 1] == entries[k..] == rest[k..] + [line];
    GoesOn(entries, n, k);
  }

  /** The last build begins at the last reset. */
  lemma {:induction false} BuildFromReset(entries: seq<Line>)
    requires forall j | 0 <= j < |entries| :: entries[j].Entry?
    ensures LastBuild(entries) == entries[LastReset(entries)..]
  {
    hide LastBuild, LastReset, Coherent;
    if entries == [] {
      NoLines();
    } else {
      var rest, line := entries[..|entries| - 1], entries[|entries| - 1];
      assert entries == rest + [line];
      BuildFromReset(rest);
      if rest == [] { OneLine(line); } else { BuildMore(rest, line); }
    }
  }

  lemma {:induction false} OneLine(line: Line)
    requires line.Entry?
    ensures LastBuild([line]) == [line] && [line][LastReset([line])..] == [line]
  {
    assert [line][..0] == [];
  }

  /** The longest run of lines at the end of the log that may be one build. */
  ghost predicate IsLongestSuffix(entries: seq<Line>, k: nat)
    requires k <= |entries|
  {
    Coherent(entries[k..]) && forall j | 0 <= j < k :: !Coherent(entries[j..])
  }

  /** The line above a build can be put before it unless the build goes back from it, or retimes its command. */
  lemma OneLineAbove(entries: seq<Line>, k: nat)
    requires 0 < k < |entries| && entries[k - 1].Entry? && Coherent(entries[k..])
    ensures Coherent(entries[k - 1..]) <==> !GoesBack(entries, k) && !Retimed(entries, k - 1, k, |entries|)
  {
    var run, run' := entries[k..], entries[k - 1..];
    assert run'[0] == entries[k - 1];
    if Coherent(run') {
      assert run'[1] == entries[k];
      forall j | k <= j < |entries|
        ensures !OtherTimes(entries[j], entries[k - 1])
      {
        assert run'[j - k + 1] == entries[j];
      }
    } else if !GoesBack(entries, k) && !Retimed(entries, k - 1, k, |entries|) {
      forall i, j | 0 <= i < j < |run'|
        ensures run'[i].Entry? && run'[j].Entry? && run'[i].end <= run'[j].end
        ensures run'[i].hash == run'[j].hash ==> run'[i].start == run'[j].start && run'[i].end == run'[j].end
      {
        assert run'[j] == run[j - 1] == entries[k - 1 + j] && run[0] == entries[k];
        if i > 0 { assert run'[i] == run[i - 1]; } else { assert !OtherTimes(entries[k - 1 + j], entries[k - 1]); }
      }
    }
  }

  /**
   The loop does not find the longest run of lines that may be one build. It does if it never starts over,
   or the last time because an end time went back. If it was because of a command with other times, then
   exactly if some line from there on has other times for the command of the line just above.
   */
  lemma {:induction false} LongestSuffix(lines: seq<Line>)
    ensures var entries := Entries(lines);
      var k := LastReset(entries);
      && k <= |entries| && LastBuild(lines) == entries[k..]
      && (IsLongestSuffix(entries, k) <==>
            k == 0 || GoesBack(entries, k) || Retimed(entries, k - 1, k, |entries|))
  {
    hide LastBuild, Entries, LastReset, Coherent, GoesBack, Retimed;
    var entries := Entries(lines);
    EntriesAreEntries(lines);
    BuildOfEntries(lines);
    BuildFromReset(entries);
    var k := LastReset(entries);
    LastBuildIsCoherent(lines);
    if entries == [] {
      NoReset();
    } else if k > 0 {
      OneLineAbove(entries, k);
      forall j | 0 <= j < k && Coherent(entries[j..])
        ensures Coherent(entries[k - 1..])
      {
        SuffixIsCoherent(entries[j..], k - 1 - j);
        assert entries[j..][k - 1 - j..] == entries[k - 1..];
      }
    }
  }

  lemma NoReset()
    ensures LastReset([]) == 0
  {
  }

  lemma ThreeLines(a: Line, b: Line, c: Line)
    requires a.Entry? && b.Entry? && c.Entry? && Coherent([a]) && Coherent([a, b]) && !Coherent([a, b, c])
    ensures LastBuild([a, b, c]) == [c] && Entries([a, b, c]) == [a, b, c]
  {
    hide Coherent, LastBuild, Entries;
    OneMoreLine([], a);
    OneMoreLine([a], b);
    OneMoreLine([a, b], c);
    NoLines();
    assert [] + [a] == [a] && [a] + [b] == [a, b] && [a, b] + [c] == [a, b, c];
  }

  lemma NoLines()
    ensures LastBuild([]) == [] && Entries([]) == []
  {
  }

  /** Three lines of which the loop keeps one, though the last two could be one build. */
  lemma LinesLost()
    ensures var lines := [Entry(0, 10, "x", "h"), Entry(0, 20, "y", "g"), Entry(15, 25, "z", "h")];
      LastBuild(lines) == [lines[2]] && Entries(lines) == lines && Coherent([lines[1], lines[2]])
  {
    hide LastBuild, Entries;
    var a, b, c := Entry(0, 10, "x", "h"), Entry(0, 20, "y", "g"), Entry(15, 25, "z", "h");
    var lines := [a, b, c];
    assert lines[0].hash == lines[2].hash && lines[0].start != lines[2].start;
    ThreeLines(a, b, c);
  }

  lemma {:induction false} HashesAreRight(run: seq<Line>)
    requires forall j | 0 <= j < |run| :: run[j].Entry?
    ensures forall h :: h in Hashes(run) <==> FirstOf(run, h).Entry?
    ensures forall h | h in Hashes(run) :: FirstOf(run, h) in run && FirstOf(run, h).hash == h
    ensures forall j, k | 0 <= j < k < |Hashes(run)| :: Hashes(run)[j] != Hashes(run)[k]
  {
    if run != [] { HashesAreRight(run[..|run| - 1]); }
  }

  /** Every line as a pair of its command and its output name. */
  ghost function Pairs(run: seq<Line>): multiset<(string, string)>
    requires forall j | 0 <= j < |run| :: run[j].Entry?
  {
    if run == [] then multiset{}
    else Pairs(run[..|run| - 1]) + multiset{(run[|run| - 1].hash, run[|run| - 1].name)}
  }

  ghost function Under(hash: string, names: seq<string>): multiset<(string, string)> {
    if names == [] then multiset{}
    else Under(hash, names[..|names| - 1]) + multiset{(hash, names[|names| - 1])}
  }

  /** The groups of the given commands, each name with the command it is listed under. */
  ghost function Grouped(run: seq<Line>, hashes: seq<string>): multiset<(string, string)>
    requires forall j | 0 <= j < |run| :: run[j].Entry?
  {
    if hashes == [] then multiset{}
    else
      var hash := hashes[|hashes| - 1];
      Grouped(run, hashes[..|hashes| - 1]) + Under(hash, NamesOf(run, hash))
  }

  /** The groups share out the lines: every output name is listed under its own command, once per line. */
  lemma {:induction false} EveryNameOnce(run: seq<Line>)
    requires forall j | 0 <= j < |run| :: run[j].Entry?
    ensures Grouped(run, Hashes(run)) == Pairs(run)
  {
    hide Hashes, NamesOf, FirstOf, Under, Grouped;
    if run == [] {
      NoGroups(run);
    } else {
      var rest, line := run[..|run| - 1], run[|run| - 1];
      assert run == rest + [line];
      EveryNameOnce(rest);
      HashesAreRight(rest);
      AppendStep(rest, line);
      GroupedGrows(rest, line, Hashes(rest));
      if line.hash !in Hashes(rest) {
        NoNames(rest, line.hash);
        OneMoreGroup(run, Hashes(rest), line.hash);
        OneName(line.hash, line.name);
        assert NamesOf(run, line.hash) == [line.name];
      }
    }
  }

  lemma {:induction false} NoGroups(run: seq<Line>)
    requires run == []
    ensures Hashes(run) == [] && Grouped(run, Hashes(run)) == multiset{}
  {
  }

  lemma {:induction false} OneName(hash: string, name: string)
    ensures Under(hash, [name]) == multiset{(hash, name)}
  {
    assert [name][..0] == [];
  }

  lemma {:induction false} OneMoreName(hash: string, names: seq<string>, name: string)
    ensures Under(hash, names + [name]) == Under(hash, names) + multiset{(hash, name)}
  {
    assert (names + [name])[..|names|] == names;
  }

  lemma {:induction false} OneMoreGroup(run: seq<Line>, hashes: seq<string>, hash: string)
    requires forall j | 0 <= j < |run| :: run[j].Entry?
    ensures Grouped(run, hashes + [hash]) == Grouped(run, hashes) + Under(hash, NamesOf(run, hash))
  {
    hide NamesOf, Under;
    assert (hashes + [hash])[..|hashes|] == hashes;
  }

  /** A further line adds its pair to the groups if its command is one of them. */
  lemma {:induction false} GroupedGrows(rest: seq<Line>, line: Line, hashes: seq<string>)
    requires line.Entry? && forall j | 0 <= j < |rest| :: rest[j].Entry?
    requires forall j, k | 0 <= j < k < |hashes| :: hashes[j] != hashes[k]
    ensures forall j | 0 <= j < |rest| + 1 :: (rest + [line])[j].Entry?
    ensures Grouped(rest + [line], hashes) ==
      Grouped(rest, hashes) + if line.hash in hashes then multiset{(line.hash, line.name)} else multiset{}
  {
    hide Hashes, NamesOf, FirstOf, Under;
    AppendStep(rest, line);
    if hashes != [] {
      var init, hash := hashes[..|hashes| - 1], hashes[|hashes| - 1];
      assert hashes == init + [hash];
      GroupedGrows(rest, line, init);
      OneMoreName(hash, NamesOf(rest, hash), line.name);
      assert NamesOf(rest, hash) + [] == NamesOf(rest, hash);
    }
  }

  lemma {:induction false} NoNames(run: seq<Line>, hash: string)
    requires forall j | 0 <= j < |run| :: run[j].Entry?
    requires FirstOf(run, hash).Malformed?
    ensures NamesOf(run, hash) == []
  {
    if run != [] { NoNames(run[..|run| - 1], hash); }
  }

  /** In one build the commands come out in the order of their ends. */
  lemma {:induction false} EndsInOrder(run: seq<Line>)
    requires Coherent(run)
    ensures forall h | h in Hashes(run) :: FirstOf(run, h).Entry?
    ensures forall j, k | 0 <= j < k < |Hashes(run)| ::
      FirstOf(run, Hashes(run)[j]).end <= FirstOf(run, Hashes(run)[k]).end
  {
    HashesAreRight(run);
    if run != [] {
      var rest, last := run[..|run| - 1], run[|run| - 1];
      assert Coherent(rest);
      EndsInOrder(rest);
      HashesAreRight(rest);
      forall h | h in Hashes(rest) ensures FirstOf(run, h) == FirstOf(rest, h) && FirstOf(rest, h).end <= last.end {
        var j :| 0 <= j < |rest| && rest[j] == FirstOf(rest, h);
        assert run[j] == rest[j];
      }
    }
  }

  function Seconds(ms: nat): real { ms as real / 1000.0 }

  /** A target as the lines of its command describe it. */
  ghost predicate Describes(target: Target, run: seq<Line>, hash: string)
    requires forall j | 0 <= j < |run| :: run[j].Entry?
    reads target
  {
    var first := FirstOf(run, hash);
    && first.Entry? && 1000.0 * target.start == first.start as real && 1000.0 * target.end == first.end as real
    && target.targets == NamesOf(run, hash)
  }

  /** The dictionary, in insertion order, describes the lines of `run`. */
  ghost predicate Read(run: seq<Line>, order: seq<string>, dict: map<string, Target>)
    reads dict.Values
  {
    && (forall j | 0 <= j < |run| :: run[j].Entry?)
    && order == Hashes(run) && (forall h :: h in dict <==> h in order)
    && (forall h | h in dict :: Describes(dict[h], run, h))
    && (forall g, h | g in dict && h in dict && g != h :: dict[g] != dict[h])
  }

  ghost function LastEnd(run: seq<Line>): real {
    if run == [] || run[|run| - 1].Malformed? then 0.0 else Seconds(run[|run| - 1].end)
  }

  ghost function Append(build: seq<Line>, line: Line, showAll: bool): seq<Line> {
    if line.Malformed? then build else if showAll || Coherent(build + [line]) then build + [line] else [line]
  }

  lemma SelectedStep(lines: seq<Line>, line: Line, showAll: bool)
    ensures Selected(lines + [line], showAll) == Append(Selected(lines, showAll), line, showAll)
  {
    OneMoreLine(lines, line);
  }

  lemma SelectedIsCoherent(lines: seq<Line>, showAll: bool)
    ensures showAll || Coherent(Selected(lines, showAll))
  {
    LastBuildIsCoherent(lines);
  }

  /** All lines of a command in a build have the times of its first line. */
  lemma {:induction false} FirstIsTypical(run: seq<Line>, hash: string)
    requires Coherent(run)
    ensures forall j | 0 <= j < |run| && run[j].hash == hash ::
              && FirstOf(run, hash).Entry?
              && run[j].start == FirstOf(run, hash).start && run[j].end == FirstOf(run, hash).end
    ensures FirstOf(run, hash).Entry? ==>
      exists j :: 0 <= j < |run| && run[j] == FirstOf(run, hash) && run[j].hash == hash
  {
    HashesAreRight(run);
    var first := FirstOf(run, hash);
    forall j | 0 <= j < |run| && run[j].hash == hash
      ensures first.Entry? && run[j].start == first.start && run[j].end == first.end
    {
      FirstExists(run, j);
      var f :| 0 <= f < |run| && run[f] == first;
    }
  }

  ghost predicate PassesTests(run: seq<Line>, line: Line)
    requires line.Entry? && forall j | 0 <= j < |run| :: run[j].Entry?
  {
    var first := FirstOf(run, line.hash);
    && (run == [] || run[|run| - 1].end <= line.end)
    && (first.Entry? ==> first.start == line.start && first.end == line.end)
  }

  lemma TestsSuffice(run: seq<Line>, line: Line)
    requires Coherent(run) && line.Entry? && PassesTests(run, line)
    ensures Coherent(run + [line])
  {
    hide FirstOf;
    FirstIsTypical(run, line.hash);
  }

  lemma TestsAreNeeded(run: seq<Line>, line: Line)
    requires Coherent(run) && line.Entry? && Coherent(run + [line])
    ensures PassesTests(run, line)
  {
    hide FirstOf;
    FirstIsTypical(run, line.hash);
    var first, run' := FirstOf(run, line.hash), run + [line];
    assert run'[|run|] == line;
    if first.Entry? {
      var j :| 0 <= j < |run| && run[j] == first && run[j].hash == line.hash;
      assert run'[j] == first;
    }
    if run != [] { assert run'[|run| - 1] == run[|run| - 1]; }
  }

  /** The two tests of the reading loop together decide coherence. */
  lemma CoherenceTest(run: seq<Line>, line: Line)
    requires Coherent(run) && line.Entry?
    ensures Coherent(run + [line]) <==> PassesTests(run, line)
  {
    if PassesTests(run, line) { TestsSuffice(run, line); }
    if Coherent(run + [line]) { TestsAreNeeded(run, line); }
  }

  lemma {:induction false} FirstExists(run: seq<Line>, j: nat)
    requires j < |run| && forall k | 0 <= k < |run| :: run[k].Entry?
    ensures FirstOf(run, run[j].hash).Entry?
  {
    if j < |run| - 1 { FirstExists(run[..|run| - 1], j); }
  }

  /** How one more line changes what the dictionary has to describe. */
  lemma {:induction false} AppendStep(run: seq<Line>, line: Line)
    requires line.Entry? && forall j | 0 <= j < |run| :: run[j].Entry?
    ensures var run' := run + [line];
            && (forall j | 0 <= j < |run'| :: run'[j].Entry?)
            && Hashes(run') == (if line.hash in Hashes(run) then Hashes(run) else Hashes(run) + [line.hash])
            && (forall h :: NamesOf(run', h) == NamesOf(run, h) + if h == line.hash then [line.name] else [])
            && (forall h ::
                 FirstOf(run', h) == if FirstOf(run, h).Malformed? && h == line.hash then line else FirstOf(run, h))
  {
    assert (run + [line])[..|run|] == run;
  }

  /**
   The reading loop. The result is the grouping by command, in order of first appearance, of the last
   build (or of all well-formed lines, with `showAll`); the file header is the caller's obligation.
   */
  method ReadTargets(lines: seq<Line>, showAll: bool) returns (result: seq<Target>)
    ensures var run := Selected(lines, showAll);
            && (forall j | 0 <= j < |run| :: run[j].Entry?)
            && |result| == |Hashes(run)|
            && (forall i | 0 <= i < |result| :: fresh(result[i]) && Describes(result[i], run, Hashes(run)[i]))
            && (forall i, j | 0 <= i < j < |result| :: result[i] != result[j])
  {
    hide Coherent, Hashes, NamesOf, FirstOf, Selected, Read, Entries, LastBuild;
    var dict: map<string, Target> := map[];
    var order: seq<string> := [];
    var lastEndSeen := 0.0;
    NothingRead(dict, order, showAll);
    for i := 0 to |lines|
      invariant Read(Selected(lines[..i], showAll), order, dict)
      invariant forall h | h in dict :: fresh(dict[h])
      invariant lastEndSeen == LastEnd(Selected(lines[..i], showAll))
    {
      var line := lines[i];
      ghost var run := Selected(lines[..i], showAll);
      assert lines[..i + 1] == lines[..i] + [line];
      SelectedStep(lines[..i], line, showAll);
      SelectedIsCoherent(lines[..i], showAll);
      AppendEnd(run, line, showAll);
      if line.Entry? {
        dict, order := AddLine(run, line, showAll, dict, order, lastEndSeen);
        lastEndSeen := Seconds(line.end);
      }
    }
    assert lines[..|lines|] == lines;
    ReadOrder(Selected(lines, showAll), order, dict);
    result := seq(|order|, i requires 0 <= i < |order| && order[i] in dict => dict[order[i]]);
  }

  lemma AppendEnd(run: seq<Line>, line: Line, showAll: bool)
    ensures LastEnd(Append(run, line, showAll)) == if line.Entry? then Seconds(line.end) else LastEnd(run)
  {
  }

  lemma NothingRead(dict: map<string, Target>, order: seq<string>, showAll: bool)
    requires dict == map[] && order == []
    ensures Selected([], showAll) == [] && Read([], order, dict)
  {
  }

  lemma {:induction false} ReadOrder(run: seq<Line>, order: seq<string>, dict: map<string, Target>)
    requires Read(run, order, dict)
    ensures (forall j | 0 <= j < |run| :: run[j].Entry?) && order == Hashes(run)
    ensures forall i | 0 <= i < |order| :: order[i] in dict && Describes(dict[order[i]], run, order[i])
    ensures forall i, j | 0 <= i < j < |order| :: dict[order[i]] != dict[order[j]]
  {
    HashesAreRight(run);
  }

  /** The treatment of one well-formed line. */
  method AddLine(ghost run: seq<Line>, line: Line, showAll: bool, dict0: map<string, Target>, order0: seq<string>,
                 lastEndSeen: real)
    returns (dict: map<string, Target>, order: seq<string>)
    requires line.Entry? && Read(run, order0, dict0) && (showAll || Coherent(run))
    requires lastEndSeen == LastEnd(run)
    modifies dict0.Values
    ensures Read(Append(run, line, showAll), order, dict)
    ensures forall h | h in dict :: fresh(dict[h]) || dict[h] in dict0.Values
  {
    dict, order := dict0, order0;
    ghost var kept := run;
    if !showAll { CoherenceTest(run, line); }
    HashesAreRight(run);
    assert [] + [line] == [line];
    if !showAll && Seconds(line.end) < lastEndSeen {
      dict, order, kept := map[], [], [];
    }
    var target: Target? := null;
    if line.hash in dict {
      target := dict[line.hash];
      if !showAll && (target.start != Seconds(line.start) || target.end != Seconds(line.end)) {
        dict, order, kept := map[], [], [];
        target := null;
      }
    }
    assert kept + [line] == Append(run, line, showAll);
    dict, order := AddOutput(kept, line, dict, order, target);
  }

  /** Records the line's output under its command, with a new target if the command has none. */
  method AddOutput(ghost run: seq<Line>, line: Line, dict0: map<string, Target>, order0: seq<string>, target0: Target?)
    returns (dict: map<string, Target>, order: seq<string>)
    requires line.Entry? && Read(run, order0, dict0)
    requires if line.hash in dict0 then target0 == dict0[line.hash] else target0 == null
    modifies dict0.Values
    ensures Read(run + [line], order, dict)
    ensures forall h | h in dict :: fresh(dict[h]) || dict[h] in dict0.Values
  {
    hide Hashes, NamesOf, FirstOf;
    var target := target0;
    dict, order := dict0, order0;
    HashesAreRight(run);
    AppendStep(run, line);
    if target == null {
      target := new Target(Seconds(line.start), Seconds(line.end));
      dict := dict[line.hash := target];
      order := order + [line.hash];
      NoNames(run, line.hash);
    }
    target.targets := target.targets + [line.name];
  }
}
