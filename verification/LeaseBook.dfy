/** Who holds what: leases over numbered devices or nodes, and the set of those that are taken. */
module LeaseBook {
  import opened Arith

  datatype Lease = Lease(ids: seq<nat>, released: bool)

  ghost predicate Outstanding(leases: seq<Lease>, i: nat) { i < |leases| && !leases[i].released }

  ghost predicate Apart(a: seq<nat>, b: seq<nat>) { forall d | d in a :: d !in b }

  /** The taken ids are exactly those of the outstanding leases, which share none. */
  ghost predicate Consistent(taken: set<nat>, leases: seq<Lease>) {
    && (forall i | 0 <= i < |leases| :: NoRepeats(leases[i].ids))
    && (forall i: nat, j: nat | i < j && Outstanding(leases, i) && Outstanding(leases, j) ::
         Apart(leases[i].ids, leases[j].ids))
    && (forall i: nat | Outstanding(leases, i) :: Elements(leases[i].ids) <= taken)
    && (forall d | d in taken :: exists i: nat :: Outstanding(leases, i) && d in leases[i].ids)
  }

  lemma Grant(taken: set<nat>, leases: seq<Lease>, ids: seq<nat>)
    requires Consistent(taken, leases) && NoRepeats(ids) && Elements(ids) !! taken
    ensures Consistent(taken + Elements(ids), leases + [Lease(ids, false)])
  {
    var after := leases + [Lease(ids, false)];
    forall i: nat, j: nat | i < j && Outstanding(after, i) && Outstanding(after, j)
      ensures Apart(after[i].ids, after[j].ids)
    {
      assert Outstanding(leases, i);
      assert j < |leases| ==> Outstanding(leases, j);
      assert forall d | d in leases[i].ids :: d in Elements(leases[i].ids);
      assert forall d | d in ids :: d in Elements(ids);
    }
    forall i: nat | Outstanding(after, i)
      ensures Elements(after[i].ids) <= taken + Elements(ids)
    {
      assert i < |leases| ==> Outstanding(leases, i);
    }
    forall d | d in taken + Elements(ids)
      ensures exists i: nat :: Outstanding(after, i) && d in after[i].ids
    {
      if d in taken {
        var i: nat :| Outstanding(leases, i) && d in leases[i].ids;
        assert Outstanding(after, i);
      } else {
        assert Outstanding(after, |leases|);
      }
    }
  }

  lemma Return(taken: set<nat>, leases: seq<Lease>, r: nat)
    requires Consistent(taken, leases) && Outstanding(leases, r)
    ensures Consistent(taken - Elements(leases[r].ids), leases[r := Lease(leases[r].ids, true)])
  {
    var gone := Elements(leases[r].ids);
    var after := leases[r := Lease(leases[r].ids, true)];
    forall i: nat | Outstanding(after, i)
      ensures Outstanding(leases, i) && i != r && Elements(after[i].ids) !! gone
    {
      assert Outstanding(leases, i) && i != r;
      assert if i < r then Apart(leases[i].ids, leases[r].ids) else Apart(leases[r].ids, leases[i].ids);
    }
    forall d | d in taken - gone
      ensures exists i: nat :: Outstanding(after, i) && d in after[i].ids
    {
      var i: nat :| Outstanding(leases, i) && d in leases[i].ids;
      assert Outstanding(after, i);
    }
  }

  // ---------------------------------------------------------------- how many are taken

  function Held(leases: seq<Lease>): nat {
    if leases == [] then 0
    else Held(leases[..|leases| - 1]) + if leases[|leases| - 1].released then 0 else |leases[|leases| - 1].ids|
  }

  lemma {:induction false} CountDistinct(ids: seq<nat>)
    requires NoRepeats(ids)
    ensures |Elements(ids)| == |ids|
  {
    if ids != [] {
      var init, last := ids[..|ids| - 1], ids[|ids| - 1];
      CountDistinct(init);
      assert Elements(ids) == Elements(init) + {last};
    }
  }

  /** As many are taken as the outstanding leases hold together; none when there are none. */
  lemma {:induction false} TakenIsHeld(taken: set<nat>, leases: seq<Lease>)
    requires Consistent(taken, leases)
    ensures |taken| == Held(leases)
  {
    hide Consistent, Elements;
    if leases == [] {
      NoneTaken(taken);
    } else {
      var k := |leases| - 1;
      var init, last := leases[..k], leases[k];
      if last.released {
        LastReleased(taken, leases);
        TakenIsHeld(taken, init);
      } else {
        LastOutstanding(taken, leases);
        TakenIsHeld(taken - Elements(last.ids), init);
        SplitSize(taken, Elements(last.ids));
      }
    }
  }

  /** Without its last lease the book is consistent once the ids of that lease are given back. */
  lemma LastOutstanding(taken: set<nat>, leases: seq<Lease>)
    requires Consistent(taken, leases) && leases != [] && !leases[|leases| - 1].released
    ensures var ids := leases[|leases| - 1].ids;
      && Consistent(taken - Elements(ids), leases[..|leases| - 1])
      && Elements(ids) <= taken && |taken * Elements(ids)| == |ids|
  {
    hide Consistent;
    var k := |leases| - 1;
    var ids := leases[k].ids;
    Return(taken, leases, k);
    LastReleased(taken - Elements(ids), leases[k := Lease(ids, true)]);
    assert leases[k := Lease(ids, true)][..k] == leases[..k];
    HeldIds(taken, leases, k);
    CountDistinct(ids);
    assert taken * Elements(ids) == Elements(ids);
  }

  lemma NoneTaken(taken: set<nat>)
    requires Consistent(taken, [])
    ensures taken == {}
  {
  }

  lemma HeldIds(taken: set<nat>, leases: seq<Lease>, i: nat)
    requires Consistent(taken, leases) && Outstanding(leases, i)
    ensures NoRepeats(leases[i].ids) && Elements(leases[i].ids) <= taken
  {
  }

  lemma LastReleased(taken: set<nat>, leases: seq<Lease>)
    requires Consistent(taken, leases) && leases != [] && leases[|leases| - 1].released
    ensures Consistent(taken, leases[..|leases| - 1])
  {
    var init := leases[..|leases| - 1];
    assert forall i: nat :: Outstanding(init, i) <==> Outstanding(leases, i);
    assert forall i: nat | i < |init| :: init[i] == leases[i];
    forall d | d in taken
      ensures exists i: nat :: Outstanding(init, i) && d in init[i].ids
    {
      var i: nat :| Outstanding(leases, i) && d in leases[i].ids;
      assert Outstanding(init, i);
    }
  }

  // ---------------------------------------------------------------- states

  /** What a manager has marked as taken, and every lease ever issued on it, in order. */
  datatype State = State(taken: set<nat>, leases: seq<Lease>)

  const EMPTY := State({}, [])

  function AfterGrant(s: State, ids: seq<nat>): State { State(s.taken + Elements(ids), s.leases + [Lease(ids, false)]) }

  /** Only the first release of a lease gives anything back. */
  function AfterRelease(s: State, i: nat): State {
    if i < |s.leases| && !s.leases[i].released then
      State(s.taken - Elements(s.leases[i].ids), s.leases[i := Lease(s.leases[i].ids, true)])
    else s
  }
}
