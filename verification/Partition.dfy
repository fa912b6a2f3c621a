/** A map that is the disjoint union of parts, one per party, plus some keys that belong to nobody. */
module Partition {

  ghost predicate OwnedBy<K, V, P>(whole: map<K, V>, parts: map<P, map<K, V>>, owner: map<K, P>, extra: set<K>) {
    && extra <= whole.Keys
    && (forall p, k | p in parts && k in parts[p] ::
          k in whole && whole[k] == parts[p][k] && k !in extra && k in owner && owner[k] == p)
    && (forall k | k in whole && k !in extra :: k in owner && owner[k] in parts && k in parts[owner[k]])
  }

  ghost predicate Partitions<K(!new), V, P(!new)>(whole: map<K, V>, parts: map<P, map<K, V>>, extra: set<K>) {
    exists owner: map<K, P> :: OwnedBy(whole, parts, owner, extra)
  }

  /** A party's part may be added if its keys are new; every other part stays as it is. */
  lemma AddPart<K(!new), V, P(!new)>(whole: map<K, V>, parts: map<P, map<K, V>>, extra: set<K>, p: P, part: map<K, V>)
    requires Partitions(whole, parts, extra) && (p in parts ==> parts[p] == map[]) && part.Keys !! whole.Keys
    ensures Partitions(whole + part, parts[p := part], extra)
  {
    var owner: map<K, P> :| OwnedBy(whole, parts, owner, extra);
    assert OwnedBy(whole + part, parts[p := part], owner + (map k | k in part :: p), extra);
  }

  /** A party's part may be removed; every other part stays as it is. */
  lemma RemovePart<K(!new), V, P(!new)>(whole: map<K, V>, parts: map<P, map<K, V>>, extra: set<K>, p: P)
    requires Partitions(whole, parts, extra) && p in parts
    ensures Partitions(whole - parts[p].Keys, parts[p := map[]], extra)
    ensures Partitions(whole - parts[p].Keys, parts - {p}, extra)
    ensures forall k | k in parts[p] :: k in whole && whole[k] == parts[p][k]
    ensures whole == whole - parts[p].Keys + parts[p]
  {
    var owner: map<K, P> :| OwnedBy(whole, parts, owner, extra);
    RemoveOwned(whole, parts, owner, extra, p);
    assert Partitions(whole - parts[p].Keys, parts[p := map[]], extra);
    assert Partitions(whole - parts[p].Keys, parts - {p}, extra);
  }

  lemma RemoveOwned<K, V, P>(whole: map<K, V>, parts: map<P, map<K, V>>, owner: map<K, P>, extra: set<K>, p: P)
    requires OwnedBy(whole, parts, owner, extra) && p in parts
    ensures OwnedBy(whole - parts[p].Keys, parts[p := map[]], owner, extra)
    ensures OwnedBy(whole - parts[p].Keys, parts - {p}, owner, extra)
  {
    var rest := whole - parts[p].Keys;
    forall k | k in rest && k !in extra
      ensures k in owner && owner[k] != p && owner[k] in parts && k in parts[owner[k]]
    {
      assert k in whole && k !in parts[p].Keys;
    }
    forall q, k | q in parts && q != p && k in parts[q]
      ensures k in rest && rest[k] == parts[q][k]
    {
      assert k in whole && owner[k] == q;
      assert k !in parts[p];
    }
  }

  /** Adding fresh keys and taking the same keys away again changes nothing. */
  lemma AddThenRemove<K(!new), V>(whole: map<K, V>, part: map<K, V>)
    requires part.Keys !! whole.Keys
    ensures whole + part - part.Keys == whole
  {
  }

  ghost predicate Includes<K(!new), V>(whole: map<K, V>, part: map<K, V>) {
    forall k | k in part :: k in whole && whole[k] == part[k]
  }

  /** Each party's part is in the whole, unchanged. */
  lemma PartHeld<K(!new), V, P(!new)>(whole: map<K, V>, parts: map<P, map<K, V>>, extra: set<K>, p: P)
    requires Partitions(whole, parts, extra) && p in parts
    ensures Includes(whole, parts[p])
  {
  }

  /** A new key may be left to nobody. */
  lemma AddExtra<K(!new), V, P(!new)>(whole: map<K, V>, parts: map<P, map<K, V>>, extra: set<K>, k: K, v: V)
    requires Partitions(whole, parts, extra) && k !in whole
    ensures Partitions(whole[k := v], parts, extra + {k})
  {
    var owner: map<K, P> :| OwnedBy(whole, parts, owner, extra);
    assert OwnedBy(whole[k := v], parts, owner, extra + {k});
  }

  /** Keys that belong to nobody may go. */
  lemma RemoveExtra<K(!new), V, P(!new)>(whole: map<K, V>, parts: map<P, map<K, V>>, extra: set<K>, gone: set<K>)
    requires Partitions(whole, parts, extra) && forall k | k in gone && k in whole :: k in extra
    ensures Partitions(whole - gone, parts, extra - gone)
  {
    var owner: map<K, P> :| OwnedBy(whole, parts, owner, extra);
    assert OwnedBy(whole - gone, parts, owner, extra - gone);
  }

  // ---------------------------------------------------------------- sizes

  ghost function Sum<K(!new)>(m: map<K, nat>): nat
    decreases |m|
  {
    if m == map[] then 0
    else
      var k :| k in m;
      m[k] + Sum(m - {k})
  }

  lemma {:induction false} SumAdd<K(!new)>(m: map<K, nat>, k: K)
    requires k in m
    ensures Sum(m) == m[k] + Sum(m - {k})
    decreases |m|
  {
    var c :| c in m && Sum(m) == m[c] + Sum(m - {c});
    if c != k {
      SumAdd(m - {c}, k);
      SumAdd(m - {k}, c);
      assert m - {c} - {k} == m - {k} - {c};
    }
  }

  lemma SumInsert<K(!new)>(m: map<K, nat>, k: K, v: nat)
    requires k !in m
    ensures Sum(m[k := v]) == Sum(m) + v
  {
    SumAdd(m[k := v], k);
    assert m[k := v] - {k} == m;
  }

  lemma {:induction false} SumUnion<K(!new)>(m: map<K, nat>, n: map<K, nat>)
    requires m.Keys !! n.Keys
    ensures Sum(m + n) == Sum(m) + Sum(n)
    decreases |n|
  {
    if n == map[] {
      assert m + n == m;
    } else {
      var k :| k in n;
      SumAdd(n, k);
      SumAdd(m + n, k);
      UnionLess(m, n, k);
      SizeLess(n, k);
      SumUnion(m, n - {k});
    }
  }

  lemma UnionLess<K, V>(m: map<K, V>, n: map<K, V>, k: K)
    requires m.Keys !! n.Keys && k in n
    ensures m + n - {k} == m + (n - {k}) && (m + n)[k] == n[k] && m.Keys !! (n - {k}).Keys
  {
  }

  lemma SizeLess<K, V>(n: map<K, V>, k: K)
    requires k in n
    ensures |n - {k}| < |n|
  {
    assert (n - {k}).Keys == n.Keys - {k};
    assert |n.Keys - {k}| == |n.Keys| - 1;
  }

  /** What every party holds, added up. */
  ghost function Total<K(!new), P(!new)>(parts: map<P, map<K, nat>>): map<P, nat> {
    map p | p in parts :: Sum(parts[p])
  }

  /** Conservation: the whole weighs what the parties hold plus what nobody owns. */
  lemma {:induction false} Conservation<K(!new), P(!new)>(whole: map<K, nat>, parts: map<P, map<K, nat>>, extra: set<K>)
    requires Partitions(whole, parts, extra)
    ensures Sum(whole) == Sum(Total(parts)) + Sum(map k | k in whole && k in extra :: whole[k])
    decreases |parts|
  {
    hide Partitions, Sum;
    if parts == map[] {
      NobodysOnly(whole, parts, extra);
    } else {
      var p :| p in parts;
      var rest := whole - parts[p].Keys;
      RemovePart(whole, parts, extra, p);
      Conservation(rest, parts - {p}, extra);
      SumUnion(rest, parts[p]);
      SumAdd(Total(parts), p);
      assert Total(parts - {p}) == Total(parts) - {p};
      ExtraKept(whole, parts, extra, p);
    }
  }

  lemma NobodysOnly<K(!new), P(!new)>(whole: map<K, nat>, parts: map<P, map<K, nat>>, extra: set<K>)
    requires Partitions(whole, parts, extra) && parts == map[]
    ensures whole == (map k | k in whole && k in extra :: whole[k]) && Sum(Total(parts)) == 0
  {
    var owner: map<K, P> :| OwnedBy(whole, parts, owner, extra);
    assert Total(parts) == map[];
  }

  lemma ExtraKept<K(!new), V, P(!new)>(whole: map<K, V>, parts: map<P, map<K, V>>, extra: set<K>, p: P)
    requires Partitions(whole, parts, extra) && p in parts
    ensures (map k | k in whole && k in extra :: whole[k]) ==
            (map k | k in (whole - parts[p].Keys) && k in extra :: (whole - parts[p].Keys)[k])
  {
    var owner: map<K, P> :| OwnedBy(whole, parts, owner, extra);
  }
}
