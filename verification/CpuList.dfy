/** Membership of a CPU in a kernel list such as `0-3,8-11`, and the NUMA node found by it. */
module CpuList {
  import opened Text
  import opened Wrappers

  /** True, False, or a ValueError. */
  datatype Verdict = Found | Absent | Malformed

  // ---------------------------------------------------------------- numbers in strings

  predicate IsDigits(s: string) { s != [] && forall i | 0 <= i < |s| :: '0' <= s[i] <= '9' }

  function Value(s: string): nat
    requires forall i | 0 <= i < |s| :: '0' <= s[i] <= '9'
  {
    if s == [] then 0 else 10 * Value(s[..|s| - 1]) + (s[|s| - 1] as int - '0' as int)
  }

  /** `int(text)`: white space around it and a sign before it are allowed. */
  function ParseInt(text: string): Option<int> {
    var s := Strip(text);
    if IsDigits(s) then Some(Value(s))
    else if s != [] && s[0] in {'+', '-'} && IsDigits(s[1..]) then
      Some(if s[0] == '-' then 0 - Value(s[1..]) else Value(s[1..]))
    else None
  }

  function IndexOf(s: string, c: char): (i: nat)
    ensures i <= |s| && (i < |s| ==> s[i] == c) && (i < |s| <==> c in s)
    ensures forall k | 0 <= k < i :: s[k] != c
  {
    if s == [] || s[0] == c then 0 else 1 + IndexOf(s[1..], c)
  }

  function Split(s: string, c: char): seq<string>
    decreases |s|
  {
    var i := IndexOf(s, c);
    if i == |s| then [s] else [s[..i]] + Split(s[i + 1..], c)
  }

  // ---------------------------------------------------------------- the test

  /** One part: the upper end of a range is read only if the lower one does not already exclude the CPU. */
  function PartVerdict(part: string, cpuId: int): Verdict {
    var p := Strip(part);
    if '-' in p then
      var i := IndexOf(p, '-');
      match ParseInt(p[..i])
      case None => Malformed
      case Some(start) =>
        if start > cpuId then Absent
        else match ParseInt(p[i + 1..])
          case None => Malformed
          case Some(end) => if cpuId <= end then Found else Absent
    else if IsDigits(p) && Value(p) == cpuId then Found else Absent
  }

  function FirstVerdict(parts: seq<string>, cpuId: int): Verdict {
    if parts == [] then Absent
    else if PartVerdict(parts[0], cpuId) != Absent then PartVerdict(parts[0], cpuId)
    else FirstVerdict(parts[1..], cpuId)
  }

  method CpuInCpulist(cpuId: int, cpulist: string) returns (verdict: Verdict)
    ensures verdict == FirstVerdict(Split(cpulist, ','), cpuId)
  {
    hide Strip, ParseInt, IsDigits;
    var parts := Split(cpulist, ',');
    for i := 0 to |parts|
      invariant FirstVerdict(parts, cpuId) == FirstVerdict(parts[i..], cpuId)
    {
      var part := Strip(parts[i]);
      if '-' in part {
        var dash := IndexOf(part, '-');
        var start := ParseInt(part[..dash]);
        if start.None? { return Malformed; }
        if start.value <= cpuId {
          var end := ParseInt(part[dash + 1..]);
          if end.None? { return Malformed; }
          if cpuId <= end.value { return Found; }
        }
      } else if IsDigits(part) {
        if ParseInt(part) == Some(cpuId) {
          PlainNumber(parts[i]);
          return Found;
        }
        PlainNumber(parts[i]);
      }
    }
    return Absent;
  }

  lemma PlainNumber(part: string)
    ensures IsDigits(Strip(part)) ==> ParseInt(Strip(part)) == Some(Value(Strip(part)))
  {
    hide IsDigits, Strip;
    StripTrims(part);
    StripTrims(Strip(part));
  }

  // ---------------------------------------------------------------- the kernel's text

  datatype Entry = Single(id: nat) | Range(first: nat, last: nat)

  predicate Contains(e: Entry, cpuId: int) {
    match e
    case Single(id) => cpuId == id
    case Range(first, last) => first <= cpuId <= last
  }

  function Decimal(n: nat): string {
    (if n < 10 then [] else Decimal(n / 10)) + [('0' as int + n % 10) as char]
  }

  function RenderEntry(e: Entry): string {
    match e
    case Single(id) => Decimal(id)
    case Range(first, last) => Decimal(first) + "-" + Decimal(last)
  }

  function Render(entries: seq<Entry>): string {
    if entries == [] then ""
    else if |entries| == 1 then RenderEntry(entries[0])
    else RenderEntry(entries[0]) + "," + Render(entries[1..])
  }

  lemma {:induction false} DecimalReadsBack(n: nat)
    ensures IsDigits(Decimal(n)) && Value(Decimal(n)) == n
  {
    var d := ('0' as int + n % 10) as char;
    if n < 10 {
      assert Decimal(n) == [d];
    } else {
      DecimalReadsBack(n / 10);
      assert Decimal(n)[..|Decimal(n)| - 1] == Decimal(n / 10);
    }
  }

  lemma {:induction false} DigitsAreTrimmed(s: string)
    requires IsDigits(s)
    ensures Strip(s) == s && ParseInt(s) == Some(Value(s))
  {
    StripTrims(s);
  }

  /** A digit string is made of the ten digits; a sign may stand before it, and white space at both ends. */
  lemma NumbersRead(n: nat, l: string, r: string)
    requires AllSpace(l) && AllSpace(r)
    ensures ParseInt(l + Decimal(n) + r) == Some(n)
    ensures ParseInt(l + "+" + Decimal(n) + r) == Some(n) && ParseInt(l + "-" + Decimal(n) + r) == Some(0 - n)
  {
    hide Strip, Decimal, Value;
    DecimalReadsBack(n);
    var d := Decimal(n);
    DigitsAreTrimmed(d);
    StripSpace(l, d, r);
    SignedNumber("+", d, l, r);
    SignedNumber("-", d, l, r);
  }

  lemma {:induction false} SignedNumber(sign: string, d: string, l: string, r: string)
    requires sign in {"+", "-"} && IsDigits(d) && AllSpace(l) && AllSpace(r)
    ensures ParseInt(l + sign + d + r) == Some(if sign == "-" then 0 - Value(d) else Value(d))
  {
    hide Strip, Value;
    var s := sign + d;
    assert s[0] == sign[0] && s[1..] == d && !IsDigits(s);
    assert Trimmed(s) by { assert s[|s| - 1] == d[|d| - 1]; }
    assert l + sign + d + r == l + s + r;
    StripSpace(l, s, r);
  }

  /** Nothing else is a number: what is left after white space and a sign are ten kinds of digits. */
  lemma OnlyNumbersRead(text: string)
    requires ParseInt(text).Some?
    ensures exists l, sign, d, r :: AllSpace(l) && sign in {"", "+", "-"} && AllSpace(r) && d != []
              && text == l + sign + d + r && forall c | c in d :: c in "0123456789"
  {
    hide Strip;
    var l, r := StripTakesSpace(text);
    var s := Strip(text);
    var sign := if IsDigits(s) then "" else [s[0]];
    var d := if IsDigits(s) then s else s[1..];
    assert text == l + sign + d + r && IsDigits(d);
    forall c | c in d
      ensures c in "0123456789"
    {
      TenDigits(c);
    }
  }

  lemma TenDigits(c: char)
    requires '0' <= c <= '9'
    ensures c in "0123456789"
  {
    assert "0123456789"[c as int - '0' as int] == c;
  }

  lemma {:induction false} SplitOnce(a: string, b: string, c: char)
    requires c !in a
    ensures c in a + [c] + b && IndexOf(a + [c] + b, c) == |a|
    ensures (a + [c] + b)[..|a|] == a && (a + [c] + b)[|a| + 1..] == b
  {
    var s := a + [c] + b;
    assert s[|a|] == c;
    assert forall k | 0 <= k < |a| :: s[k] == a[k];
  }

  lemma EntryVerdict(e: Entry, cpuId: int)
    ensures PartVerdict(RenderEntry(e), cpuId) == (if Contains(e, cpuId) then Found else Absent)
    ensures ',' !in RenderEntry(e) && Trimmed(RenderEntry(e)) && RenderEntry(e) != []
  {
    hide Decimal, Strip, Value, ParseInt;
    match e
    case Single(id) =>
      DecimalReadsBack(id);
      DigitsAreTrimmed(Decimal(id));
    case Range(first, last) =>
      DecimalReadsBack(first);
      DecimalReadsBack(last);
      DigitsAreTrimmed(Decimal(first));
      DigitsAreTrimmed(Decimal(last));
      StripTrims(RenderEntry(e));
      SplitOnce(Decimal(first), Decimal(last), '-');
  }

  ghost predicate AnyContains(entries: seq<Entry>, cpuId: int) { exists e :: e in entries && Contains(e, cpuId) }

  /** For every list of CPUs and ranges as the kernel prints it, the test is exact and never fails. */
  lemma {:induction false} ListMembership(entries: seq<Entry>, cpuId: int)
    ensures FirstVerdict(Split(Render(entries), ','), cpuId) == (if AnyContains(entries, cpuId) then Found else Absent)
  {
    hide PartVerdict, RenderEntry, Contains, Strip;
    if entries == [] {
      EmptyPart(cpuId);
    } else {
      var e, rest := entries[0], entries[1..];
      EntryVerdict(e, cpuId);
      assert entries == [e] + rest;
      if rest == [] {
        assert Split(Render(entries), ',') == [RenderEntry(e)];
      } else {
        ListMembership(rest, cpuId);
        SplitOnce(RenderEntry(e), Render(rest), ',');
        assert Split(Render(entries), ',') == [RenderEntry(e)] + Split(Render(rest), ',');
      }
    }
  }

  lemma EmptyPart(cpuId: int)
    ensures PartVerdict("", cpuId) == Absent
  {
  }

  // ---------------------------------------------------------------- the node of a CPU

  /** An entry of the node directory: its name, and the text of its `cpulist` file if it has one. */
  datatype NodeDir = NodeDir(name: string, cpulist: Option<string>)

  predicate StartsWithNode(name: string) { "node" <= name }

  function Lookup(dirs: seq<NodeDir>, cpuId: int): Option<int> {
    if dirs == [] then None
    else
      var d := dirs[0];
      if StartsWithNode(d.name) && ParseInt(d.name[4..]).Some? && d.cpulist.Some?
         && FirstVerdict(Split(Strip(d.cpulist.value), ','), cpuId) == Found
      then ParseInt(d.name[4..])
      else Lookup(dirs[1..], cpuId)
  }

  method GetNumaNodeForCpu(cpuId: int, dirs: seq<NodeDir>) returns (node: Option<int>)
    ensures node == Lookup(dirs, cpuId)
  {
    hide ParseInt, Strip, FirstVerdict;
    for i := 0 to |dirs|
      invariant Lookup(dirs, cpuId) == Lookup(dirs[i..], cpuId)
    {
      if !StartsWithNode(dirs[i].name) { continue; }
      var nodeId := ParseInt(dirs[i].name[4..]);
      if nodeId.None? { continue; }
      if dirs[i].cpulist.Some? {
        var verdict := CpuInCpulist(cpuId, Strip(dirs[i].cpulist.value));
        if verdict == Found { return nodeId; }
      }
    }
    return None;
  }

  datatype Node = Node(id: nat, cpus: seq<Entry>)

  /** How the kernel shows a node: the list on one line. */
  function DirOf(node: Node): NodeDir { NodeDir("node" + Decimal(node.id), Some(Render(node.cpus) + "\n")) }

  ghost predicate Shows(dirs: seq<NodeDir>, nodes: seq<Node>) {
    && (forall n | n in nodes :: DirOf(n) in dirs)
    && (forall d, rest | d in dirs && d.name == "node" + rest :: exists n :: n in nodes && d == DirOf(n))
  }

  lemma {:induction false} RenderIsTrimmed(entries: seq<Entry>)
    ensures Trimmed(Render(entries)) && (entries != [] ==> Render(entries) != [])
  {
    hide RenderEntry;
    if entries != [] {
      EntryVerdict(entries[0], 0);
      if |entries| > 1 { RenderIsTrimmed(entries[1..]); }
    }
  }

  lemma StripNewline(s: string)
    requires Trimmed(s)
    ensures Strip(s + "\n") == s
  {
    if s == [] {
      var t := s + "\n";
      assert t == "\n" && t[1..] == [] && StripLeft(t) == StripLeft(t[1..]) == [];
    } else {
      var t := s + "\n";
      assert t[|t| - 1] == '\n' && t[..|t| - 1] == s && t[0] == s[0];
      assert StripRight(t) == StripRight(s) == s;
    }
  }

  lemma {:induction false} NodeVerdict(n: Node, cpuId: int)
    ensures var d := DirOf(n);
      && StartsWithNode(d.name) && ParseInt(d.name[4..]) == Some(n.id)
      && FirstVerdict(Split(Strip(d.cpulist.value), ','), cpuId) ==
           (if AnyContains(n.cpus, cpuId) then Found else Absent)
  {
    hide FirstVerdict, Strip, Render, Decimal, ParseInt, Value;
    DecimalReadsBack(n.id);
    DigitsAreTrimmed(Decimal(n.id));
    assert ("node" + Decimal(n.id))[4..] == Decimal(n.id);
    RenderIsTrimmed(n.cpus);
    StripNewline(Render(n.cpus));
    ListMembership(n.cpus, cpuId);
  }

  ghost predicate IsNodeOf(nodes: seq<Node>, id: int, cpuId: int) {
    exists n :: n in nodes && n.id == id && AnyContains(n.cpus, cpuId)
  }

  /** In whatever order the directory is read, a node is found exactly when one has the CPU, and it has it. */
  lemma {:induction false} NumaNodeIsRight(dirs: seq<NodeDir>, nodes: seq<Node>, cpuId: int)
    requires Shows(dirs, nodes)
    ensures match Lookup(dirs, cpuId)
      case Some(id) => IsNodeOf(nodes, id, cpuId)
      case None => forall n | n in nodes :: !AnyContains(n.cpus, cpuId)
  {
    hide AnyContains, DirOf, Lookup;
    forall d | d in dirs && StartsWithNode(d.name)
      ensures exists n :: n in nodes && d == DirOf(n)
    {
      assert d.name == "node" + d.name[4..];
    }
    LookupAmong(dirs, nodes, cpuId);
    if Lookup(dirs, cpuId) == None {
      forall n | n in nodes
        ensures !AnyContains(n.cpus, cpuId)
      {
        LookupMisses(dirs, n, cpuId);
      }
    }
  }

  lemma {:induction false} LookupAmong(dirs: seq<NodeDir>, nodes: seq<Node>, cpuId: int)
    requires forall d | d in dirs && StartsWithNode(d.name) :: exists n :: n in nodes && d == DirOf(n)
    ensures Lookup(dirs, cpuId).Some? ==> IsNodeOf(nodes, Lookup(dirs, cpuId).value, cpuId)
  {
    hide FirstVerdict, Strip, ParseInt, DirOf, AnyContains;
    if dirs != [] {
      var d := dirs[0];
      assert d in dirs;
      LookupAmong(dirs[1..], nodes, cpuId);
      if StartsWithNode(d.name) {
        var n :| n in nodes && d == DirOf(n);
        NodeVerdict(n, cpuId);
      }
    }
  }

  lemma {:induction false} LookupMisses(dirs: seq<NodeDir>, n: Node, cpuId: int)
    requires DirOf(n) in dirs && Lookup(dirs, cpuId) == None
    ensures !AnyContains(n.cpus, cpuId)
  {
    hide FirstVerdict, Strip, ParseInt, AnyContains;
    NodeVerdict(n, cpuId);
    if dirs[0] != DirOf(n) { LookupMisses(dirs[1..], n, cpuId); }
  }
}
