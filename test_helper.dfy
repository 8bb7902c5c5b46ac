/**
 * The id-keyed lookups of the integration-test helper: maps from cell,
 * cluster and particle ids to descriptions, and the join of the cells
 * before and after a simulation step into (before, after) pairs.
 *
 * An id is a `nat` (the source's `uint64_t`); the attributes of a
 * description other than its id and its cells are `properties`.
 */
module TestHelper {

  import opened Wrappers

  datatype CellDescription = CellDescription(id: nat, properties: int)

  datatype ClusterDescription = ClusterDescription(id: nat, cells: Option<seq<CellDescription>>, properties: int)

  datatype ParticleDescription = ParticleDescription(id: nat, properties: int)

  datatype DataDescription = DataDescription(
    clusters: Option<seq<ClusterDescription>>,
    particles: Option<seq<ParticleDescription>>)

  /* ---------------------------------------------------------------- */
  /* Key policies                                                      */
  /* ---------------------------------------------------------------- */

  /** A map filled entry by entry with `insert_or_assign`: a later entry overwrites an earlier one. */
  function LastWins<V>(entries: seq<(nat, V)>): map<nat, V>
  {
    if entries == [] then map[]
    else LastWins(entries[..|entries| - 1])[entries[|entries| - 1].0 := entries[|entries| - 1].1]
  }

  /** A map filled entry by entry with `insert`: an entry whose key is already present is dropped. */
  function FirstWins<V>(entries: seq<(nat, V)>): map<nat, V>
  {
    if entries == [] then map[]
    else if entries[|entries| - 1].0 in FirstWins(entries[..|entries| - 1]) then FirstWins(entries[..|entries| - 1])
    else FirstWins(entries[..|entries| - 1])[entries[|entries| - 1].0 := entries[|entries| - 1].1]
  }

  lemma LastWinsSnoc<V>(entries: seq<(nat, V)>, e: (nat, V))
    ensures LastWins(entries + [e]) == LastWins(entries)[e.0 := e.1]
  {
    assert (entries + [e])[..|entries|] == entries;
  }

  lemma FirstWinsSnoc<V>(entries: seq<(nat, V)>, e: (nat, V))
    ensures FirstWins(entries + [e]) ==
            if e.0 in FirstWins(entries) then FirstWins(entries) else FirstWins(entries)[e.0 := e.1]
  {
    assert (entries + [e])[..|entries|] == entries;
  }

  lemma {:induction false} KeyIsEntryKey<V>(entries: seq<(nat, V)>, k: nat)
    ensures k in LastWins(entries) <==> exists i | 0 <= i < |entries| :: entries[i].0 == k
    ensures k in FirstWins(entries) <==> exists i | 0 <= i < |entries| :: entries[i].0 == k
  {
    if entries != [] {
      var init := entries[..|entries| - 1];
      KeyIsEntryKey(init, k);
      if exists i | 0 <= i < |entries| :: entries[i].0 == k {
        var i :| 0 <= i < |entries| && entries[i].0 == k;
        if i < |init| {
          assert init[i].0 == k;
        }
      }
      if exists i | 0 <= i < |init| :: init[i].0 == k {
        var i :| 0 <= i < |init| && init[i].0 == k;
        assert entries[i].0 == k;
      }
    }
  }

  /** Under either policy the keys are exactly the keys of the entries. */
  lemma KeysAreEntryKeys<V>(entries: seq<(nat, V)>)
    ensures forall k :: k in LastWins(entries) <==> exists i | 0 <= i < |entries| :: entries[i].0 == k
    ensures forall k :: k in FirstWins(entries) <==> exists i | 0 <= i < |entries| :: entries[i].0 == k
  {
    forall k: nat ensures k in LastWins(entries) <==> exists i | 0 <= i < |entries| :: entries[i].0 == k {
      KeyIsEntryKey(entries, k);
    }
    forall k: nat ensures k in FirstWins(entries) <==> exists i | 0 <= i < |entries| :: entries[i].0 == k {
      KeyIsEntryKey(entries, k);
    }
  }

  /** `insert_or_assign` keeps, for each key, the value of the last entry with that key. */
  lemma {:induction false} LastWinsKeepsLastEntry<V>(entries: seq<(nat, V)>, i: nat)
    requires i < |entries|
    requires forall j | i < j < |entries| :: entries[j].0 != entries[i].0
    ensures entries[i].0 in LastWins(entries) && LastWins(entries)[entries[i].0] == entries[i].1
  {
    if i < |entries| - 1 {
      LastWinsKeepsLastEntry(entries[..|entries| - 1], i);
    }
  }

  /** `insert` keeps, for each key, the value of the first entry with that key. */
  lemma {:induction false} FirstWinsKeepsFirstEntry<V>(entries: seq<(nat, V)>, i: nat)
    requires i < |entries|
    requires forall j | 0 <= j < i :: entries[j].0 != entries[i].0
    ensures entries[i].0 in FirstWins(entries) && FirstWins(entries)[entries[i].0] == entries[i].1
  {
    var init := entries[..|entries| - 1];
    if i < |entries| - 1 {
      FirstWinsKeepsFirstEntry(init, i);
    } else {
      KeyIsEntryKey(init, entries[i].0);
      assert forall j | 0 <= j < |init| :: init[j] == entries[j];
    }
  }

  /** With distinct keys the two policies agree; they differ only on duplicate ids. */
  lemma {:induction false} PoliciesAgreeOnDistinctKeys<V>(entries: seq<(nat, V)>)
    requires forall i, j | 0 <= i < j < |entries| :: entries[i].0 != entries[j].0
    ensures FirstWins(entries) == LastWins(entries)
  {
    if entries != [] {
      var init := entries[..|entries| - 1];
      PoliciesAgreeOnDistinctKeys(init);
      var last := entries[|entries| - 1];
      KeyIsEntryKey(init, last.0);
      assert forall j | 0 <= j < |init| :: init[j] == entries[j];
    }
  }

  /** With a duplicate id the two policies disagree. */
  lemma PoliciesDifferOnDuplicates()
    ensures var entries: seq<(nat, int)> := [(7, 1), (7, 2)];
            FirstWins(entries)[7] == 1 && LastWins(entries)[7] == 2
  {
    var entries: seq<(nat, int)> := [(7, 1), (7, 2)];
    assert entries[..1] == [(7, 1)];
    assert entries[..1][..0] == [];
  }

  /* ---------------------------------------------------------------- */
  /* The entries each lookup inserts, in insertion order               */
  /* ---------------------------------------------------------------- */

  /** Every cluster carries its cell list (the source dereferences it unchecked). */
  predicate HaveCells(clusters: seq<ClusterDescription>)
  {
    forall k | 0 <= k < |clusters| :: clusters[k].cells.Some?
  }

  predicate DataHasCells(data: DataDescription)
  {
    data.clusters.Some? ==> HaveCells(data.clusters.value)
  }

  /** (cell id, cell) for each cell. */
  function CellPairs(cells: seq<CellDescription>): seq<(nat, CellDescription)>
  {
    seq(|cells|, k requires 0 <= k < |cells| => (cells[k].id, cells[k]))
  }

  /** (cell id, owner) for each cell. */
  function OwnerPairs(cells: seq<CellDescription>, owner: ClusterDescription): seq<(nat, ClusterDescription)>
  {
    seq(|cells|, k requires 0 <= k < |cells| => (cells[k].id, owner))
  }

  lemma PairsSnoc(cells: seq<CellDescription>, owner: ClusterDescription, j: nat)
    requires j < |cells|
    ensures CellPairs(cells[..j + 1]) == CellPairs(cells[..j]) + [(cells[j].id, cells[j])]
    ensures OwnerPairs(cells[..j + 1], owner) == OwnerPairs(cells[..j], owner) + [(cells[j].id, owner)]
  {
  }

  /** (cell id, cell) for every cell of every cluster, in order. */
  function CellEntries(clusters: seq<ClusterDescription>): seq<(nat, CellDescription)>
    requires HaveCells(clusters)
  {
    if clusters == [] then []
    else CellEntries(clusters[..|clusters| - 1]) + CellPairs(clusters[|clusters| - 1].cells.value)
  }

  /** (cell id, owning cluster) for every cell of every cluster, in order. */
  function OwnerEntries(clusters: seq<ClusterDescription>): seq<(nat, ClusterDescription)>
    requires HaveCells(clusters)
  {
    if clusters == [] then []
    else
      var last := clusters[|clusters| - 1];
      OwnerEntries(clusters[..|clusters| - 1]) + OwnerPairs(last.cells.value, last)
  }

  lemma EntriesSnoc(clusters: seq<ClusterDescription>, i: nat)
    requires i < |clusters| && HaveCells(clusters)
    ensures CellEntries(clusters[..i + 1]) == CellEntries(clusters[..i]) + CellPairs(clusters[i].cells.value)
    ensures OwnerEntries(clusters[..i + 1]) == OwnerEntries(clusters[..i]) + OwnerPairs(clusters[i].cells.value, clusters[i])
  {
    assert clusters[..i + 1][..i] == clusters[..i];
  }

  function ClusterEntries(clusters: seq<ClusterDescription>): seq<(nat, ClusterDescription)>
  {
    seq(|clusters|, k requires 0 <= k < |clusters| => (clusters[k].id, clusters[k]))
  }

  function ParticleEntries(particles: seq<ParticleDescription>): seq<(nat, ParticleDescription)>
  {
    seq(|particles|, k requires 0 <= k < |particles| => (particles[k].id, particles[k]))
  }

  /** Every entry of `CellEntries` is keyed by its own cell's id. */
  lemma {:induction false} CellEntriesKeyedById(clusters: seq<ClusterDescription>)
    requires HaveCells(clusters)
    ensures forall i | 0 <= i < |CellEntries(clusters)| :: CellEntries(clusters)[i].0 == CellEntries(clusters)[i].1.id
  {
    if clusters != [] {
      CellEntriesKeyedById(clusters[..|clusters| - 1]);
    }
  }

  /** A map whose every entry is keyed by its own id. */
  predicate KeyedById(m: map<nat, CellDescription>)
  {
    forall id | id in m :: m[id].id == id
  }

  lemma {:induction false} LastWinsKeyedById(entries: seq<(nat, CellDescription)>)
    requires forall i | 0 <= i < |entries| :: entries[i].0 == entries[i].1.id
    ensures KeyedById(LastWins(entries))
  {
    if entries != [] {
      LastWinsKeyedById(entries[..|entries| - 1]);
    }
  }

  /* ---------------------------------------------------------------- */
  /* The lookups                                                       */
  /* ---------------------------------------------------------------- */

  /** `getCellByCellId`. */
  method GetCellByCellId(data: DataDescription) returns (result: map<nat, CellDescription>)
    requires DataHasCells(data)
    ensures data.clusters.None? ==> result == map[]
    ensures data.clusters.Some? ==> result == LastWins(CellEntries(data.clusters.value))
    ensures KeyedById(result)
  {
    result := map[];
    if data.clusters.Some? {
      var clusters := data.clusters.value;
      for i := 0 to |clusters|
        invariant result == LastWins(CellEntries(clusters[..i]))
      {
        var cells := clusters[i].cells.value;
        ghost var done := CellEntries(clusters[..i]);
        assert done + CellPairs(cells[..0]) == done;
        for j := 0 to |cells|
          invariant result == LastWins(done + CellPairs(cells[..j]))
        {
          PairsSnoc(cells, clusters[i], j);
          LastWinsSnoc(done + CellPairs(cells[..j]), (cells[j].id, cells[j]));
          assert done + CellPairs(cells[..j + 1]) == done + CellPairs(cells[..j]) + [(cells[j].id, cells[j])];
          result := result[cells[j].id := cells[j]];
        }
        assert cells[..|cells|] == cells;
        EntriesSnoc(clusters, i);
      }
      assert clusters[..|clusters|] == clusters;
      CellEntriesKeyedById(clusters);
      LastWinsKeyedById(CellEntries(clusters));
    }
  }

  /** `getClusterByCellId`. */
  method GetClusterByCellId(data: DataDescription) returns (result: map<nat, ClusterDescription>)
    requires DataHasCells(data)
    ensures data.clusters.None? ==> result == map[]
    ensures data.clusters.Some? ==> result == LastWins(OwnerEntries(data.clusters.value))
  {
    result := map[];
    if data.clusters.Some? {
      var clusters := data.clusters.value;
      for i := 0 to |clusters|
        invariant result == LastWins(OwnerEntries(clusters[..i]))
      {
        var cluster := clusters[i];
        var cells := cluster.cells.value;
        ghost var done := OwnerEntries(clusters[..i]);
        assert done + OwnerPairs(cells[..0], cluster) == done;
        for j := 0 to |cells|
          invariant result == LastWins(done + OwnerPairs(cells[..j], cluster))
        {
          PairsSnoc(cells, cluster, j);
          LastWinsSnoc(done + OwnerPairs(cells[..j], cluster), (cells[j].id, cluster));
          assert done + OwnerPairs(cells[..j + 1], cluster) == done + OwnerPairs(cells[..j], cluster) + [(cells[j].id, cluster)];
          result := result[cells[j].id := cluster];
        }
        assert cells[..|cells|] == cells;
        EntriesSnoc(clusters, i);
      }
      assert clusters[..|clusters|] == clusters;
    }
  }

  /** `getClusterByClusterId`. */
  method GetClusterByClusterId(data: DataDescription) returns (result: map<nat, ClusterDescription>)
    ensures data.clusters.None? ==> result == map[]
    ensures data.clusters.Some? ==> result == LastWins(ClusterEntries(data.clusters.value))
  {
    result := map[];
    if data.clusters.Some? {
      var clusters := data.clusters.value;
      for i := 0 to |clusters|
        invariant result == LastWins(ClusterEntries(clusters[..i]))
      {
        LastWinsSnoc(ClusterEntries(clusters[..i]), (clusters[i].id, clusters[i]));
        assert ClusterEntries(clusters[..i + 1]) == ClusterEntries(clusters[..i]) + [(clusters[i].id, clusters[i])];
        result := result[clusters[i].id := clusters[i]];
      }
      assert clusters[..|clusters|] == clusters;
    }
  }

  /** `getParticleByParticleId`: `std::inserter` inserts, so the first particle of an id stays. */
  method GetParticleByParticleId(data: DataDescription) returns (result: map<nat, ParticleDescription>)
    ensures data.particles.None? ==> result == map[]
    ensures data.particles.Some? ==> result == FirstWins(ParticleEntries(data.particles.value))
  {
    result := map[];
    if data.particles.Some? {
      var particles := data.particles.value;
      for i := 0 to |particles|
        invariant result == FirstWins(ParticleEntries(particles[..i]))
      {
        FirstWinsSnoc(ParticleEntries(particles[..i]), (particles[i].id, particles[i]));
        assert ParticleEntries(particles[..i + 1]) == ParticleEntries(particles[..i]) + [(particles[i].id, particles[i])];
        if particles[i].id !in result {
          result := result[particles[i].id := particles[i]];
        }
      }
      assert particles[..|particles|] == particles;
    }
  }

  /* ---------------------------------------------------------------- */
  /* Before and after pairs                                            */
  /* ---------------------------------------------------------------- */

  type CellPair = (Option<CellDescription>, Option<CellDescription>)

  function Lookup(m: map<nat, CellDescription>, id: nat): Option<CellDescription>
  {
    if id in m then Some(m[id]) else None
  }

  /** The id a pair stands for (the id of whichever side is present). */
  function PairId(p: CellPair): nat
    requires p.0.Some? || p.1.Some?
  {
    if p.0.Some? then p.0.value.id else p.1.value.id
  }

  /** The pair `getBeforeAndAfterCells` emits for an id. */
  function JoinPair(before: map<nat, CellDescription>, after: map<nat, CellDescription>, id: nat): CellPair
  {
    (Lookup(before, id), Lookup(after, id))
  }

  /** The pairs emitted for the ids in the order they are visited. */
  function JoinPairs(before: map<nat, CellDescription>, after: map<nat, CellDescription>, order: seq<nat>): (r: seq<CellPair>)
    ensures |r| == |order|
    ensures forall k | 0 <= k < |order| :: r[k] == JoinPair(before, after, order[k])
  {
    if order == [] then []
    else JoinPairs(before, after, order[..|order| - 1]) + [JoinPair(before, after, order[|order| - 1])]
  }

  lemma JoinPairsSnoc(before: map<nat, CellDescription>, after: map<nat, CellDescription>, order: seq<nat>, id: nat)
    ensures JoinPairs(before, after, order + [id]) == JoinPairs(before, after, order) + [JoinPair(before, after, id)]
  {
    assert (order + [id])[..|order|] == order;
  }

  lemma MultisetAddFresh(s: set<nat>, id: nat)
    requires id !in s
    ensures multiset(s + {id}) == multiset(s) + multiset{id}
  {
  }

  predicate NoEmptyPair(result: seq<CellPair>)
  {
    forall k | 0 <= k < |result| :: result[k].0.Some? || result[k].1.Some?
  }

  /** The ids the pairs stand for, in order. */
  function PairIds(result: seq<CellPair>): (ids: seq<nat>)
    requires NoEmptyPair(result)
    ensures |ids| == |result| && forall k | 0 <= k < |result| :: ids[k] == PairId(result[k])
  {
    seq(|result|, k requires 0 <= k < |result| => PairId(result[k]))
  }

  /**
   * What `getBeforeAndAfterCells` promises of its result for the two id
   * maps: no pair is empty, each pair is the before and after cell of its
   * id, and every id of `ids` is represented exactly once.
   */
  predicate PairsJoin(result: seq<CellPair>, before: map<nat, CellDescription>, after: map<nat, CellDescription>, ids: set<nat>)
  {
    && NoEmptyPair(result)
    && (forall k | 0 <= k < |result| :: result[k] == JoinPair(before, after, PairId(result[k])))
    && multiset(PairIds(result)) == multiset(ids)
  }

  /**
   * Visiting every id of `ids` exactly once, in any order, yields a join of
   * the two maps with exactly one pair per id.
   */
  lemma JoinPairsJoin(before: map<nat, CellDescription>, after: map<nat, CellDescription>, order: seq<nat>, ids: set<nat>)
    requires KeyedById(before) && KeyedById(after)
    requires multiset(order) == multiset(ids) && ids <= before.Keys + after.Keys
    ensures PairsJoin(JoinPairs(before, after, order), before, after, ids)
    ensures |JoinPairs(before, after, order)| == |ids|
  {
    var r := JoinPairs(before, after, order);
    forall k | 0 <= k < |r| ensures (r[k].0.Some? || r[k].1.Some?) && PairId(r[k]) == order[k] {
      assert order[k] in multiset(order);
    }
    assert PairIds(r) == order;
    assert |multiset(order)| == |order|;
    assert |multiset(ids)| == |ids|;
  }

  /**
   * The order in which an unordered map's keys are walked: unspecified, but
   * every key exactly once.
   */
  method IterationOrder(keys: set<nat>) returns (order: seq<nat>)
    ensures multiset(order) == multiset(keys)
  {
    order := [];
    var remaining := keys;
    while remaining != {}
      invariant remaining <= keys
      invariant multiset(order) == multiset(keys - remaining)
      decreases remaining
    {
      var id :| id in remaining;
      MultisetAddFresh(keys - remaining, id);
      assert keys - (remaining - {id}) == (keys - remaining) + {id};
      order := order + [id];
      remaining := remaining - {id};
    }
    assert keys - remaining == keys;
  }

  /** The ids of `keys` that `before` lacks, in the order of `keys`. */
  function AfterOnly(keys: seq<nat>, before: map<nat, CellDescription>): (r: seq<nat>)
    ensures forall k | 0 <= k < |r| :: r[k] !in before
  {
    if keys == [] then []
    else
      var last := keys[|keys| - 1];
      AfterOnly(keys[..|keys| - 1], before) + (if last in before then [] else [last])
  }

  /** `AfterOnly` keeps the keys `before` lacks, each as often as it occurs. */
  lemma {:induction false} AfterOnlyCount(keys: seq<nat>, before: map<nat, CellDescription>, x: nat)
    ensures multiset(AfterOnly(keys, before))[x] == if x in before then 0 else multiset(keys)[x]
  {
    if keys != [] {
      var init, last := keys[..|keys| - 1], keys[|keys| - 1];
      AfterOnlyCount(init, before, x);
      assert keys == init + [last];
    }
  }

  /** The ids visited by both loops together are the ids of both maps, each once. */
  lemma VisitedIds(before: map<nat, CellDescription>, after: map<nat, CellDescription>, beforeKeys: seq<nat>, afterKeys: seq<nat>)
    requires multiset(beforeKeys) == multiset(before.Keys) && multiset(afterKeys) == multiset(after.Keys)
    ensures multiset(beforeKeys + AfterOnly(afterKeys, before)) == multiset(before.Keys + after.Keys)
  {
    forall x ensures multiset(beforeKeys + AfterOnly(afterKeys, before))[x] == multiset(before.Keys + after.Keys)[x] {
      AfterOnlyCount(afterKeys, before, x);
    }
  }

  /** The first loop of `getBeforeAndAfterCells`: one pair per "before" id, in the order `keys`. */
  method PairBeforeCells(before: map<nat, CellDescription>, after: map<nat, CellDescription>, keys: seq<nat>)
    returns (result: seq<CellPair>)
    requires multiset(keys) == multiset(before.Keys)
    ensures result == JoinPairs(before, after, keys)
  {
    result := [];
    for i := 0 to |keys|
      invariant result == JoinPairs(before, after, keys[..i])
    {
      var id := keys[i];
      assert id in multiset(keys);
      JoinPairsSnoc(before, after, keys[..i], id);
      assert keys[..i + 1] == keys[..i] + [id];
      result := result + [(Some(before[id]), Lookup(after, id))];
    }
    assert keys[..|keys|] == keys;
  }

  /** The second loop of `getBeforeAndAfterCells`: one pair per "after"-only id, appended. */
  method AppendAfterOnlyCells(before: map<nat, CellDescription>, after: map<nat, CellDescription>,
                              pairs: seq<CellPair>, keys: seq<nat>)
    returns (result: seq<CellPair>)
    requires multiset(keys) == multiset(after.Keys)
    ensures result == pairs + JoinPairs(before, after, AfterOnly(keys, before))
  {
    result := pairs;
    assert keys[..0] == [];
    for i := 0 to |keys|
      invariant result == pairs + JoinPairs(before, after, AfterOnly(keys[..i], before))
    {
      var id := keys[i];
      AppendStep(before, after, pairs, keys, i, result);
      if id !in before {
        result := result + [(None, Some(after[id]))];
      }
    }
    assert keys[..|keys|] == keys;
  }

  /** One step of the second loop keeps its invariant. */
  lemma AppendStep(before: map<nat, CellDescription>, after: map<nat, CellDescription>,
                   pairs: seq<CellPair>, keys: seq<nat>, i: nat, result: seq<CellPair>)
    requires multiset(keys) == multiset(after.Keys) && i < |keys|
    requires result == pairs + JoinPairs(before, after, AfterOnly(keys[..i], before))
    ensures keys[i] in after
    ensures keys[i] in before ==> result == pairs + JoinPairs(before, after, AfterOnly(keys[..i + 1], before))
    ensures keys[i] !in before ==>
              result + [(None, Some(after[keys[i]]))] == pairs + JoinPairs(before, after, AfterOnly(keys[..i + 1], before))
  {
    assert keys[i] in multiset(keys);
    AfterOnlyStep(before, after, keys, i);
  }

  /** The pairs of the "after"-only ids grow by the pair of `keys[i]` when `before` lacks it. */
  lemma AfterOnlyStep(before: map<nat, CellDescription>, after: map<nat, CellDescription>, keys: seq<nat>, i: nat)
    requires i < |keys| && keys[i] in after
    ensures JoinPairs(before, after, AfterOnly(keys[..i + 1], before)) ==
            JoinPairs(before, after, AfterOnly(keys[..i], before)) +
            (if keys[i] in before then [] else [(None, Some(after[keys[i]]))])
  {
    assert keys[..i + 1][..i] == keys[..i];
    if keys[i] !in before {
      JoinPairsSnoc(before, after, AfterOnly(keys[..i], before), keys[i]);
    }
  }

  /** Both loops of `getBeforeAndAfterCells` over the two id maps. */
  method JoinByCellId(before: map<nat, CellDescription>, after: map<nat, CellDescription>)
    returns (result: seq<CellPair>)
    requires KeyedById(before) && KeyedById(after)
    ensures PairsJoin(result, before, after, before.Keys + after.Keys)
    ensures |result| == |before.Keys + after.Keys|
    ensures forall k | 0 <= k < |result| :: (k < |before.Keys| <==> result[k].0.Some?)
  {
    var beforeKeys := IterationOrder(before.Keys);
    var pairs := PairBeforeCells(before, after, beforeKeys);
    var afterKeys := IterationOrder(after.Keys);
    result := AppendAfterOnlyCells(before, after, pairs, afterKeys);
    JoinOfBothLoops(before, after, beforeKeys, afterKeys);
  }

  lemma JoinPairsAppend(before: map<nat, CellDescription>, after: map<nat, CellDescription>, x: seq<nat>, y: seq<nat>)
    ensures JoinPairs(before, after, x + y) == JoinPairs(before, after, x) + JoinPairs(before, after, y)
  {
  }

  /** The pairs of both loops form the join, the "before" ids first. */
  lemma JoinOfBothLoops(before: map<nat, CellDescription>, after: map<nat, CellDescription>, beforeKeys: seq<nat>, afterKeys: seq<nat>)
    requires KeyedById(before) && KeyedById(after)
    requires multiset(beforeKeys) == multiset(before.Keys) && multiset(afterKeys) == multiset(after.Keys)
    ensures var result := JoinPairs(before, after, beforeKeys) + JoinPairs(before, after, AfterOnly(afterKeys, before));
            && PairsJoin(result, before, after, before.Keys + after.Keys)
            && |result| == |before.Keys + after.Keys|
            && forall k | 0 <= k < |result| :: (k < |before.Keys| <==> result[k].0.Some?)
  {
    var order := beforeKeys + AfterOnly(afterKeys, before);
    JoinPairsAppend(before, after, beforeKeys, AfterOnly(afterKeys, before));
    VisitedIds(before, after, beforeKeys, afterKeys);
    JoinPairsJoin(before, after, order, before.Keys + after.Keys);
    BeforeKeysFirst(before, after, beforeKeys, afterKeys);
  }

  lemma BeforeKeysFirst(before: map<nat, CellDescription>, after: map<nat, CellDescription>, beforeKeys: seq<nat>, afterKeys: seq<nat>)
    requires multiset(beforeKeys) == multiset(before.Keys)
    ensures var result := JoinPairs(before, after, beforeKeys) + JoinPairs(before, after, AfterOnly(afterKeys, before));
            forall k | 0 <= k < |result| :: (k < |before.Keys| <==> result[k].0.Some?)
  {
    assert |multiset(beforeKeys)| == |beforeKeys|;
    assert |multiset(before.Keys)| == |before.Keys|;
    forall k | 0 <= k < |beforeKeys| ensures beforeKeys[k] in before {
      assert beforeKeys[k] in multiset(beforeKeys);
    }
  }

  /** The cell map `getCellByCellId` builds. */
  function CellsById(data: DataDescription): map<nat, CellDescription>
    requires DataHasCells(data)
  {
    if data.clusters.Some? then LastWins(CellEntries(data.clusters.value)) else map[]
  }

  /**
   * `getBeforeAndAfterCells`: every cell id of either data set gets exactly
   * one pair, holding the cell it has before and the cell it has after;
   * the pairs of ids present before come first.
   */
  method GetBeforeAndAfterCells(dataBefore: DataDescription, dataAfter: DataDescription)
    returns (result: seq<CellPair>)
    requires DataHasCells(dataBefore) && DataHasCells(dataAfter)
    ensures var before, after := CellsById(dataBefore), CellsById(dataAfter);
            && PairsJoin(result, before, after, before.Keys + after.Keys)
            && |result| == |before.Keys + after.Keys|
            && forall k | 0 <= k < |result| :: (k < |before.Keys| <==> result[k].0.Some?)
  {
    var cellBeforeById := GetCellByCellId(dataBefore);
    var cellAfterById := GetCellByCellId(dataAfter);
    result := JoinByCellId(cellBeforeById, cellAfterById);
  }
}
