/**
 The two-shot all-reduce exchange of one block slot, as a state machine over every interleaving of
 the ranks. A rank stores one segment into every peer's buffer, raises a coloured flag, waits for
 the peers' flags while it reduces its own segment, and repeats the same steps to broadcast the
 reduced segment. Buffers and flags are never cleared between tiles: only the colour, a wrapping
 32-bit counter, tells a fresh flag from a stale one.
 */
module TwoShot {
  import Arith

  /** What the kernel is asked to do: `input(rank, round, segment)` is a rank's share of a tile. */
  datatype Job<!V> = Job(world: nat, rounds: nat, input: (nat, nat, nat) -> V, add: (V, V) -> V, zero: V)

  /** Where a rank stands within its current round (one round per tile of the slot). */
  datatype Phase<V> =
    | Send0(target: nat)
    | Flag0(raised: set<nat>)
    | Recv0(source: nat, acc: V)
    | Send1(target: nat, reduced: V)
    | Flag1(raised: set<nat>)
    | Recv1(source: nat, gathered: seq<V>)

  datatype Rank<V> = Rank(round: nat, phase: Phase<V>, outputs: seq<seq<V>>)

  /** Communication memory is indexed by (owner of the buffer, rank that writes into it). */
  datatype State<V> = State(
    ranks: seq<Rank<V>>,
    flags0: map<(nat, nat), nat>, data0: map<(nat, nat), V>,
    flags1: map<(nat, nat), nat>, data1: map<(nat, nat), V>)

  const COLOURS: nat := 0x1_0000_0000

  /** The counter starts at 1 and is advanced once per tile, modulo 2^32. */
  function Colour(round: nat): nat { (1 + round) % COLOURS }

  // ---------------------------------------------------------------- the steps of the protocol

  ghost predicate HasKeys<V>(job: Job<V>, st: State<V>) {
    && |st.ranks| == job.world
    && (forall d, s | 0 <= d < job.world && 0 <= s < job.world :: (d, s) in st.flags0)
    && (forall d, s | 0 <= d < job.world && 0 <= s < job.world :: (d, s) in st.data0)
    && (forall d, s | 0 <= d < job.world && 0 <= s < job.world :: (d, s) in st.flags1)
    && (forall d, s | 0 <= d < job.world && 0 <= s < job.world :: (d, s) in st.data1)
  }

  /** Flags are zeroed by the host; the data buffers hold whatever was there. */
  ghost predicate Init<V>(job: Job<V>, st: State<V>) {
    && HasKeys(job, st)
    && (forall r | 0 <= r < job.world :: st.ranks[r] == Rank(0, Send0(0), []))
    && (forall d, s | 0 <= d < job.world && 0 <= s < job.world :: st.flags0[(d, s)] == 0)
    && (forall d, s | 0 <= d < job.world && 0 <= s < job.world :: st.flags1[(d, s)] == 0)
  }

  /** Rank `r` may act on peer `t`: sends and receives go in rank order, flags in any order. */
  ghost predicate Enabled<V>(job: Job<V>, st: State<V>, r: nat, t: nat)
    requires HasKeys(job, st)
  {
    && r < job.world && t < job.world && st.ranks[r].round < job.rounds
    && match st.ranks[r].phase
       case Send0(target) => t == target
       case Flag0(raised) => t !in raised
       case Recv0(source, _) => t == source && st.flags0[(r, t)] == Colour(st.ranks[r].round)
       case Send1(target, _) => t == target
       case Flag1(raised) => t !in raised
       case Recv1(source, _) => t == source && st.flags1[(r, t)] == Colour(st.ranks[r].round)
  }

  ghost predicate Complete(world: nat, raised: set<nat>) {
    forall t | 0 <= t < world :: t in raised
  }

  ghost predicate Among(world: nat, raised: set<nat>) {
    forall t | t in raised :: t < world
  }

  /** Rank `me` after acting on peer `t`, having read `x` if it was receiving. */
  ghost function Advance<V>(job: Job<V>, me: Rank<V>, t: nat, x: V): Rank<V> {
    match me.phase
    case Send0(_) => me.(phase := if t + 1 == job.world then Flag0({}) else Send0(t + 1))
    case Flag0(raised) =>
      me.(phase := if Complete(job.world, raised + {t}) then Recv0(0, job.zero) else Flag0(raised + {t}))
    case Recv0(_, acc) =>
      me.(phase := if t + 1 == job.world then Send1(0, job.add(acc, x)) else Recv0(t + 1, job.add(acc, x)))
    case Send1(_, reduced) => me.(phase := if t + 1 == job.world then Flag1({}) else Send1(t + 1, reduced))
    case Flag1(raised) =>
      me.(phase := if Complete(job.world, raised + {t}) then Recv1(0, []) else Flag1(raised + {t}))
    case Recv1(_, gathered) =>
      if t + 1 == job.world then Rank(me.round + 1, Send0(0), me.outputs + [gathered + [x]])
      else me.(phase := Recv1(t + 1, gathered + [x]))
  }

  ghost function Next<V>(job: Job<V>, st: State<V>, r: nat, t: nat): State<V>
    requires HasKeys(job, st) && Enabled(job, st, r, t)
  {
    var me := st.ranks[r];
    var x := if me.phase.Recv0? then st.data0[(r, t)] else st.data1[(r, t)];
    var st' := st.(ranks := st.ranks[r := Advance(job, me, t, x)]);
    match me.phase
    case Send0(_) => st'.(data0 := st.data0[(t, r) := job.input(r, me.round, t)])
    case Flag0(_) => st'.(flags0 := st.flags0[(t, r) := Colour(me.round)])
    case Recv0(_, _) => st'
    case Send1(_, reduced) => st'.(data1 := st.data1[(t, r) := reduced])
    case Flag1(_) => st'.(flags1 := st.flags1[(t, r) := Colour(me.round)])
    case Recv1(_, _) => st'
  }

  /** A run: the pairs (rank, peer) in the order in which the interleaving executes them. */
  ghost predicate Run<V>(job: Job<V>, start: State<V>, actions: seq<(nat, nat)>, end: State<V>)
    requires HasKeys(job, start)
    decreases |actions|
  {
    if actions == [] then start == end
    else
      && Enabled(job, start, actions[0].0, actions[0].1)
      && HasKeys(job, Next(job, start, actions[0].0, actions[0].1))
      && Run(job, Next(job, start, actions[0].0, actions[0].1), actions[1..], end)
  }

  // ---------------------------------------------------------------- what the exchange promises

  /** The first `n` ranks' shares of a segment, added in rank order (no associativity assumed). */
  ghost function Partial<V>(job: Job<V>, segment: nat, round: nat, n: nat): V {
    if n == 0 then job.zero
    else job.add(Partial(job, segment, round, n - 1), job.input(n - 1, round, segment))
  }

  ghost function Reduced<V>(job: Job<V>, segment: nat, round: nat): V {
    Partial(job, segment, round, job.world)
  }

  ghost predicate AllReduced<V>(job: Job<V>, round: nat, row: seq<V>) {
    |row| == job.world && forall segment | 0 <= segment < job.world :: row[segment] == Reduced(job, segment, round)
  }

  // ---------------------------------------------------------------- the invariant

  ghost predicate Sent0<V>(me: Rank<V>, d: nat) { me.phase.Send0? ==> d < me.phase.target }
  ghost predicate Flagged0<V>(me: Rank<V>, d: nat) { !me.phase.Send0? && (me.phase.Flag0? ==> d in me.phase.raised) }
  ghost predicate Got0<V>(me: Rank<V>, s: nat) {
    !me.phase.Send0? && !me.phase.Flag0? && (me.phase.Recv0? ==> s < me.phase.source)
  }
  ghost predicate Sent1<V>(me: Rank<V>, d: nat) {
    me.phase.Flag1? || me.phase.Recv1? || (me.phase.Send1? && d < me.phase.target)
  }
  ghost predicate Flagged1<V>(me: Rank<V>, d: nat) { me.phase.Recv1? || (me.phase.Flag1? && d in me.phase.raised) }
  ghost predicate Got1<V>(me: Rank<V>, s: nat) { me.phase.Recv1? && s < me.phase.source }

  /** How often something that happens once per round has happened. */
  ghost function Times<V>(me: Rank<V>, doneThisRound: bool): nat { me.round + if doneThisRound then 1 else 0 }

  ghost function FlagValue(times: nat): nat { if times == 0 then 0 else Colour(times - 1) }

  ghost predicate RankOk<V>(job: Job<V>, r: nat, me: Rank<V>) {
    && |me.outputs| == me.round <= job.rounds
    && (forall k | 0 <= k < me.round :: AllReduced(job, k, me.outputs[k]))
    && (me.round == job.rounds ==> me.phase == Send0(0))
    && match me.phase
       case Send0(target) => target < job.world
       case Flag0(raised) => Among(job.world, raised) && !Complete(job.world, raised)
       case Recv0(source, acc) => source < job.world && acc == Partial(job, r, me.round, source)
       case Send1(target, reduced) => target < job.world && reduced == Reduced(job, r, me.round)
       case Flag1(raised) => Among(job.world, raised) && !Complete(job.world, raised)
       case Recv1(source, gathered) =>
         && |gathered| == source < job.world
         && forall j | 0 <= j < source :: gathered[j] == Reduced(job, j, me.round)
  }

  /** One direction of a link: what `src` (rank s) has written for `dst` (rank d), and how far apart they are. */
  ghost predicate LinkOk<V>(job: Job<V>, d: nat, s: nat, dst: Rank<V>, src: Rank<V>, flag0: nat, data0: V, flag1: nat,
                            data1: V)
  {
    && flag0 == FlagValue(Times(src, Flagged0(src, d)))
    && flag1 == FlagValue(Times(src, Flagged1(src, d)))
    && Times(dst, Got0(dst, s)) <= Times(src, Flagged0(src, d))
    && Times(dst, Got1(dst, s)) <= Times(src, Flagged1(src, d))
    && (Times(src, Sent0(src, d)) > 0 ==> data0 == job.input(s, Times(src, Sent0(src, d)) - 1, d))
    && (Times(src, Sent1(src, d)) > 0 ==> data1 == Reduced(job, s, Times(src, Sent1(src, d)) - 1))
  }

  ghost predicate PairOk<V>(job: Job<V>, st: State<V>, d: nat, s: nat)
    requires HasKeys(job, st) && d < job.world && s < job.world
  {
    LinkOk(job, d, s, st.ranks[d], st.ranks[s],
           st.flags0[(d, s)], st.data0[(d, s)], st.flags1[(d, s)], st.data1[(d, s)])
  }

  ghost predicate Inv<V>(job: Job<V>, st: State<V>) {
    && HasKeys(job, st)
    && (forall r | 0 <= r < job.world :: RankOk(job, r, st.ranks[r]))
    && (forall d, s | 0 <= d < job.world && 0 <= s < job.world :: PairOk(job, st, d, s))
  }

  lemma InitInv<V>(job: Job<V>, st: State<V>)
    requires Init(job, st) && job.world > 0
    ensures Inv(job, st)
  {
    assert |st.ranks| > 0;
  }

  /** A phase-one flag of the right colour is fresh: the segment behind it is this round's. */
  lemma FreshFlag0<V>(job: Job<V>, st: State<V>, d: nat, s: nat)
    requires Inv(job, st) && d < job.world && s < job.world
    requires st.ranks[d].phase.Recv0? && st.ranks[d].phase.source == s
    ensures st.flags0[(d, s)] == Colour(st.ranks[d].round) <==>
      Times(st.ranks[s], Flagged0(st.ranks[s], d)) > st.ranks[d].round
    ensures st.flags0[(d, s)] == Colour(st.ranks[d].round) ==> st.data0[(d, s)] == job.input(s, st.ranks[d].round, d)
  {
    assert PairOk(job, st, d, s) && PairOk(job, st, s, d);
    var dst, src := st.ranks[d], st.ranks[s];
    assert src.round <= dst.round;
  }

  /** A phase-two flag of the right colour is fresh, even when its sender has already moved on. */
  lemma FreshFlag1<V>(job: Job<V>, st: State<V>, d: nat, s: nat)
    requires Inv(job, st) && d < job.world && s < job.world
    requires st.ranks[d].phase.Recv1? && st.ranks[d].phase.source == s
    ensures st.flags1[(d, s)] == Colour(st.ranks[d].round) <==>
      Times(st.ranks[s], Flagged1(st.ranks[s], d)) > st.ranks[d].round
    ensures st.flags1[(d, s)] == Colour(st.ranks[d].round) ==> st.data1[(d, s)] == Reduced(job, s, st.ranks[d].round)
  {
    assert PairOk(job, st, d, s) && PairOk(job, st, s, d);
    var dst, src := st.ranks[d], st.ranks[s];
    assert Times(src, Got0(src, d)) <= dst.round + 1;
    assert src.round == dst.round + 1 ==> !Sent1(src, d) && !Flagged1(src, d);
  }

  lemma NothingRaised(world: nat)
    requires world > 0
    ensures !Complete(world, {})
  {
    var none: set<nat> := {};
    assert Complete(world, none) ==> 0 in none;
  }

  lemma StepKeepsRank<V>(job: Job<V>, st: State<V>, r: nat, t: nat)
    requires Inv(job, st) && Enabled(job, st, r, t)
    ensures RankOk(job, r, Next(job, st, r, t).ranks[r])
  {
    hide RankOk, Advance, PairOk, Colour, Reduced;
    var me := st.ranks[r];
    if me.phase.Recv0? { FreshFlag0(job, st, r, t); }
    if me.phase.Recv1? { FreshFlag1(job, st, r, t); }
    AdvanceKeepsRank(job, r, me, t, if me.phase.Recv0? then st.data0[(r, t)] else st.data1[(r, t)]);
  }

  /** The sequential part of `Enabled`: peers are served in rank order, flags in any order. */
  ghost predicate InTurn<V>(job: Job<V>, me: Rank<V>, t: nat) {
    && t < job.world
    && (me.phase.Flag0? || me.phase.Flag1? ||
        t == match me.phase case Send0(i) => i case Recv0(i, _) => i case Send1(i, _) => i case Recv1(i, _) => i)
  }

  /** A rank that has read the right value goes on in order. */
  lemma AdvanceKeepsRank<V>(job: Job<V>, r: nat, me: Rank<V>, t: nat, x: V)
    requires RankOk(job, r, me) && InTurn(job, me, t) && me.round < job.rounds
    requires me.phase.Recv0? ==> x == job.input(t, me.round, r)
    requires me.phase.Recv1? ==> x == Reduced(job, t, me.round)
    ensures RankOk(job, r, Advance(job, me, t, x))
  {
    match me.phase {
      case Send0(_) => NothingRaised(job.world);
      case Flag0(_) =>
      case Recv0(_, _) =>
      case Send1(_, _) => NothingRaised(job.world);
      case Flag1(_) =>
      case Recv1(_, gathered) => assert t + 1 == job.world ==> AllReduced(job, me.round, gathered + [x]);
    }
  }

  /** A step of the writing side keeps its link to every reader, itself included, in order. */
  lemma SourceStep<V>(job: Job<V>, d: nat, r: nat, dst: Rank<V>, me: Rank<V>, t: nat, x: V,
                      flag0: nat, data0: V, flag1: nat, data1: V)
    requires d < job.world && RankOk(job, r, me) && InTurn(job, me, t)
    requires LinkOk(job, d, r, dst, me, flag0, data0, flag1, data1)
    ensures LinkOk(job, d, r, dst, Advance(job, me, t, x),
                   if me.phase.Flag0? && t == d then Colour(me.round) else flag0,
                   if me.phase.Send0? && t == d then job.input(r, me.round, d) else data0,
                   if me.phase.Flag1? && t == d then Colour(me.round) else flag1,
                   if me.phase.Send1? && t == d then me.phase.reduced else data1)
  {
    hide Reduced, Partial, AllReduced, Colour;
    if me.phase.Flag0? || me.phase.Flag1? {
      assert Complete(job.world, me.phase.raised + {t}) ==> d in me.phase.raised + {t};
    }
  }

  /** A step of the reading side keeps the link, provided what it consumes has been raised. */
  lemma TargetStep<V>(job: Job<V>, r: nat, s: nat, me: Rank<V>, src: Rank<V>, t: nat, x: V,
                      flag0: nat, data0: V, flag1: nat, data1: V)
    requires s < job.world && RankOk(job, r, me) && InTurn(job, me, t)
    requires LinkOk(job, r, s, me, src, flag0, data0, flag1, data1)
    requires me.phase.Recv0? && s == t ==> Times(src, Flagged0(src, r)) > me.round
    requires me.phase.Recv1? && s == t ==> Times(src, Flagged1(src, r)) > me.round
    ensures LinkOk(job, r, s, Advance(job, me, t, x), src, flag0, data0, flag1, data1)
  {
  }

  /** A step writes at most the one cell that its phase names. */
  lemma StepWrites<V>(job: Job<V>, st: State<V>, r: nat, t: nat, d: nat, s: nat)
    requires HasKeys(job, st) && Enabled(job, st, r, t) && d < job.world && s < job.world
    ensures var me, st' := st.ranks[r], Next(job, st, r, t);
            && HasKeys(job, st')
            && (d != r ==> st'.ranks[d] == st.ranks[d])
            && st'.flags0[(d, s)] ==
                 (if me.phase.Flag0? && t == d && r == s then Colour(me.round) else st.flags0[(d, s)])
            && st'.data0[(d, s)] ==
                 (if me.phase.Send0? && t == d && r == s then job.input(r, me.round, d) else st.data0[(d, s)])
            && st'.flags1[(d, s)] ==
                 (if me.phase.Flag1? && t == d && r == s then Colour(me.round) else st.flags1[(d, s)])
            && st'.data1[(d, s)] == (if me.phase.Send1? && t == d && r == s then me.phase.reduced else st.data1[(d, s)])
  {
    assert HasKeys(job, Next(job, st, r, t));
  }

  lemma StepKeepsPair<V>(job: Job<V>, st: State<V>, r: nat, t: nat, d: nat, s: nat)
    requires Inv(job, st) && Enabled(job, st, r, t) && d < job.world && s < job.world
    requires HasKeys(job, Next(job, st, r, t))
    ensures PairOk(job, Next(job, st, r, t), d, s)
  {
    var me, dst, src := st.ranks[r], st.ranks[d], st.ranks[s];
    var f0, d0, f1, d1 := st.flags0[(d, s)], st.data0[(d, s)], st.flags1[(d, s)], st.data1[(d, s)];
    var x := if me.phase.Recv0? then st.data0[(r, t)] else st.data1[(r, t)];
    StepWrites(job, st, r, t, d, s);
    StepWrites(job, st, r, t, s, s);
    assert PairOk(job, st, d, s) && RankOk(job, r, me);
    if d == r {
      if me.phase.Recv0? { FreshFlag0(job, st, r, t); }
      if me.phase.Recv1? { FreshFlag1(job, st, r, t); }
      TargetStep(job, r, s, me, src, t, x, f0, d0, f1, d1);
      dst := Advance(job, me, t, x);
    }
    if s == r {
      SourceStep(job, d, r, dst, me, t, x, f0, d0, f1, d1);
    }
  }

  lemma StepKeepsInv<V>(job: Job<V>, st: State<V>, r: nat, t: nat)
    requires Inv(job, st) && Enabled(job, st, r, t)
    ensures Inv(job, Next(job, st, r, t))
  {
    var st' := Next(job, st, r, t);
    StepWrites(job, st, r, t, 0, 0);
    StepKeepsRank(job, st, r, t);
    forall d, s | 0 <= d < job.world && 0 <= s < job.world ensures PairOk(job, st', d, s) {
      StepKeepsPair(job, st, r, t, d, s);
    }
  }

  // ---------------------------------------------------------------- the theorems

  lemma {:induction false} RunKeepsInv<V>(job: Job<V>, start: State<V>, actions: seq<(nat, nat)>, end: State<V>)
    requires Inv(job, start) && Run(job, start, actions, end)
    ensures Inv(job, end)
    decreases |actions|
  {
    if actions != [] {
      StepKeepsInv(job, start, actions[0].0, actions[0].1);
      RunKeepsInv(job, Next(job, start, actions[0].0, actions[0].1), actions[1..], end);
    }
  }

  /** Safety: whatever the interleaving, every tile a rank has finished holds the full reduction. */
  lemma {:induction false} EveryOutputIsTheReduction<V>(job: Job<V>, start: State<V>, actions: seq<(nat, nat)>,
                                                        end: State<V>)
    requires job.world > 0 && Init(job, start) && Run(job, start, actions, end)
    ensures |end.ranks| == job.world
    ensures forall r | 0 <= r < job.world :: |end.ranks[r].outputs| == end.ranks[r].round <= job.rounds
    ensures forall r, k | 0 <= r < job.world && 0 <= k < end.ranks[r].round ::
      AllReduced(job, k, end.ranks[r].outputs[k])
  {
    InitInv(job, start);
    RunKeepsInv(job, start, actions, end);
    assert forall r | 0 <= r < job.world :: RankOk(job, r, end.ranks[r]);
  }

  ghost function Stage<V>(phase: Phase<V>): nat {
    match phase case Send0(_) => 0 case Flag0(_) => 1 case Recv0(_, _) => 2
                case Send1(_, _) => 3 case Flag1(_) => 4 case Recv1(_, _) => 5
  }

  ghost predicate Behind<V>(a: Rank<V>, b: Rank<V>) {
    a.round < b.round || (a.round == b.round && Stage(a.phase) <= Stage(b.phase))
  }

  lemma {:induction false} Slowest<V>(ranks: seq<Rank<V>>) returns (r: nat)
    requires ranks != []
    ensures r < |ranks| && forall i | 0 <= i < |ranks| :: Behind(ranks[r], ranks[i])
  {
    if |ranks| == 1 {
      r := 0;
    } else {
      var last := |ranks| - 1;
      r := Slowest(ranks[..last]);
      assert forall i | 0 <= i < last :: Behind(ranks[r], ranks[..last][i]);
      if !Behind(ranks[r], ranks[last]) { r := last; }
    }
  }

  /** No deadlock: the rank that is furthest behind is never waiting, so a run can always go on. */
  lemma SlowestCanStep<V>(job: Job<V>, st: State<V>) returns (r: nat, t: nat)
    requires Inv(job, st) && job.world > 0
    requires exists i :: 0 <= i < job.world && st.ranks[i].round < job.rounds
    ensures Enabled(job, st, r, t)
  {
    r := Slowest(st.ranks);
    var me := st.ranks[r];
    assert RankOk(job, r, me);
    match me.phase {
      case Send0(target) => t := target;
      case Flag0(raised) => t :| 0 <= t < job.world && t !in raised;
      case Recv0(source, _) => t := source; assert Behind(me, st.ranks[t]); FreshFlag0(job, st, r, t);
      case Send1(target, _) => t := target;
      case Flag1(raised) => t :| 0 <= t < job.world && t !in raised;
      case Recv1(source, _) =>
        t := source;
        assert Behind(me, st.ranks[t]);
        FreshFlag1(job, st, r, t);
    }
  }

  /** A run that cannot go on has delivered every tile to every rank. */
  lemma {:induction false} StuckMeansDone<V>(job: Job<V>, start: State<V>, actions: seq<(nat, nat)>, end: State<V>)
    requires job.world > 0 && Init(job, start) && Run(job, start, actions, end)
    requires HasKeys(job, end) && forall r: nat, t: nat :: !Enabled(job, end, r, t)
    ensures forall r | 0 <= r < job.world :: |end.ranks[r].outputs| == job.rounds
    ensures forall r, k | 0 <= r < job.world && 0 <= k < job.rounds :: AllReduced(job, k, end.ranks[r].outputs[k])
  {
    InitInv(job, start);
    RunKeepsInv(job, start, actions, end);
    assert forall r | 0 <= r < job.world :: RankOk(job, r, end.ranks[r]);
    if exists i :: 0 <= i < job.world && end.ranks[i].round < job.rounds {
      var r, t := SlowestCanStep(job, end);
      assert false;
    }
  }

  // ---------------------------------------------------------------- every run is finite

  /** Steps a rank has taken: every round is 6 * world of them, `world` in each of its six stages. */
  ghost function Work<V>(job: Job<V>, me: Rank<V>): nat {
    6 * (job.world * me.round) + Stage(me.phase) * job.world +
    match me.phase case Send0(i) => i case Flag0(raised) => |raised| case Recv0(i, _) => i
                   case Send1(i, _) => i case Flag1(raised) => |raised| case Recv1(i, _) => i
  }

  ghost function Budget<V>(job: Job<V>): nat { 6 * (job.world * job.rounds) }

  ghost function Sum(xs: seq<nat>): nat {
    if xs == [] then 0 else Sum(xs[..|xs| - 1]) + xs[|xs| - 1]
  }

  ghost function TotalWork<V>(job: Job<V>, ranks: seq<Rank<V>>): nat {
    Sum(seq(|ranks|, i requires 0 <= i < |ranks| => Work(job, ranks[i])))
  }

  lemma {:induction false} SumUpdate(xs: seq<nat>, i: nat, x: nat)
    requires i < |xs|
    ensures Sum(xs[i := x]) == Sum(xs) - xs[i] + x
  {
    var last := |xs| - 1;
    if i == last {
      assert xs[i := x][..last] == xs[..last];
    } else {
      SumUpdate(xs[..last], i, x);
      assert xs[i := x][..last] == xs[..last][i := x];
    }
  }

  lemma {:induction false} SumBound(xs: seq<nat>, bound: nat)
    requires forall i | 0 <= i < |xs| :: xs[i] <= bound
    ensures Sum(xs) <= |xs| * bound
  {
    if xs != [] {
      SumBound(xs[..|xs| - 1], bound);
      assert |xs| * bound == (|xs| - 1) * bound + bound;
    }
  }

  lemma {:induction false} RaisedCount(world: nat, raised: set<nat>)
    requires Among(world, raised)
    ensures |raised| <= world
    ensures Complete(world, raised) ==> |raised| == world
  {
    if world == 0 {
      assert raised == {};
    } else {
      var last := world - 1;
      RaisedCount(last, raised - {last});
      if last in raised { assert |raised| == |raised - {last}| + 1; } else { assert raised - {last} == raised; }
    }
  }

  lemma AdvanceWork<V>(job: Job<V>, r: nat, me: Rank<V>, t: nat, x: V)
    requires RankOk(job, r, me) && InTurn(job, me, t)
    requires me.phase.Flag0? || me.phase.Flag1? ==> t !in me.phase.raised
    ensures Work(job, Advance(job, me, t, x)) == Work(job, me) + 1
  {
    if me.phase.Flag0? || me.phase.Flag1? { RaisedCount(job.world, me.phase.raised + {t}); }
    assert job.world * (me.round + 1) == job.world * me.round + job.world;
  }

  lemma WorkBound<V>(job: Job<V>, r: nat, me: Rank<V>)
    requires RankOk(job, r, me)
    ensures Work(job, me) <= Budget(job)
  {
    if me.phase.Flag0? || me.phase.Flag1? { RaisedCount(job.world, me.phase.raised); }
    if me.round < job.rounds {
      Arith.MulMonotone(job.world, me.round + 1, job.rounds);
      assert job.world * (me.round + 1) == job.world * me.round + job.world;
    }
  }

  lemma StepWork<V>(job: Job<V>, st: State<V>, r: nat, t: nat)
    requires Inv(job, st) && Enabled(job, st, r, t)
    ensures TotalWork(job, Next(job, st, r, t).ranks) == TotalWork(job, st.ranks) + 1
  {
    var me, ranks, ranks' := st.ranks[r], st.ranks, Next(job, st, r, t).ranks;
    var x := if me.phase.Recv0? then st.data0[(r, t)] else st.data1[(r, t)];
    var me' := Advance(job, me, t, x);
    var works := seq(|ranks|, i requires 0 <= i < |ranks| => Work(job, ranks[i]));
    assert RankOk(job, r, me);
    AdvanceWork(job, r, me, t, x);
    SumUpdate(works, r, Work(job, me'));
    assert seq(|ranks'|, i requires 0 <= i < |ranks'| => Work(job, ranks'[i])) == works[r := Work(job, me')];
  }

  lemma {:induction false} RunWork<V>(job: Job<V>, start: State<V>, actions: seq<(nat, nat)>, end: State<V>)
    requires Inv(job, start) && Run(job, start, actions, end)
    ensures TotalWork(job, end.ranks) == TotalWork(job, start.ranks) + |actions|
    decreases |actions|
  {
    if actions != [] {
      StepWork(job, start, actions[0].0, actions[0].1);
      StepKeepsInv(job, start, actions[0].0, actions[0].1);
      RunWork(job, Next(job, start, actions[0].0, actions[0].1), actions[1..], end);
    }
  }

  lemma TotalWorkBound<V>(job: Job<V>, ranks: seq<Rank<V>>)
    requires forall r | 0 <= r < |ranks| :: Work(job, ranks[r]) <= Budget(job)
    ensures TotalWork(job, ranks) <= |ranks| * Budget(job)
  {
    SumBound(seq(|ranks|, i requires 0 <= i < |ranks| => Work(job, ranks[i])), Budget(job));
  }

  /** With `StuckMeansDone`: every interleaving terminates, and terminates with the full reduction. */
  lemma {:induction false} RunsAreFinite<V>(job: Job<V>, start: State<V>, actions: seq<(nat, nat)>, end: State<V>)
    requires job.world > 0 && Init(job, start) && Run(job, start, actions, end)
    ensures |actions| <= job.world * Budget(job)
  {
    InitInv(job, start);
    RunKeepsInv(job, start, actions, end);
    RunWork(job, start, actions, end);
    forall r | 0 <= r < |end.ranks| ensures Work(job, end.ranks[r]) <= Budget(job) {
      assert RankOk(job, r, end.ranks[r]);
      WorkBound(job, r, end.ranks[r]);
    }
    TotalWorkBound(job, end.ranks);
  }
}
