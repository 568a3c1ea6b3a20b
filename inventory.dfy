/** The EC2 inventory import: per-region counts of running instances and of
    reserved instances, and the merge of the per-region tables into one. The
    cloud queries become parameters: a region is the list of instances and
    the list of (already state-filtered) reservations it reported. */
module Inventory {
  import opened Wrappers

  /** The tag key whose value names an instance's service. */
  const SERVICE_TAG_KEY := "service"
  /** The service recorded for an instance that has no service tag. */
  const UNKNOWN_SERVICE := "unknown"

  datatype Tag = Tag(key: string, value: string)

  /** An instance as the resource API reports it; `tags` is None when the
      instance has no tags at all. */
  datatype Instance = Instance(instanceType: string, az: string, tags: Option<seq<Tag>>)

  /** A reserved-instance record: how many instances of a type it reserves in
      a zone. */
  datatype Reservation = Reservation(az: string, instanceType: string, instanceCount: int)

  datatype InstanceKey = InstanceKey(az: string, service: string, instanceType: string)
  datatype ReservationKey = ReservationKey(az: string, instanceType: string)

  /** What the cloud reported for one region. */
  datatype RegionData = RegionData(instances: seq<Instance>, reservations: seq<Reservation>)

  // ---------------------------------------------------------------------
  // The service tag

  /** The value of the last tag whose key is the service key, if any. */
  function LastServiceTag(tags: seq<Tag>): Option<string>
  {
    if tags == [] then None
    else if tags[|tags| - 1].key == SERVICE_TAG_KEY then Some(tags[|tags| - 1].value)
    else LastServiceTag(tags[..|tags| - 1])
  }

  /** The service an instance is counted under. */
  function ServiceOf(tags: Option<seq<Tag>>): string
  {
    match tags
    case None => UNKNOWN_SERVICE
    case Some(ts) => LastServiceTag(ts).GetOr(UNKNOWN_SERVICE)
  }

  /** A service tag is found exactly when some tag has the service key, and
      then it is the value of the last such tag. */
  lemma {:induction false} LastServiceTagSpec(tags: seq<Tag>)
    ensures LastServiceTag(tags).None? <==> forall i :: 0 <= i < |tags| ==> tags[i].key != SERVICE_TAG_KEY
    ensures LastServiceTag(tags).Some? ==>
      exists i :: 0 <= i < |tags| && tags[i].key == SERVICE_TAG_KEY && tags[i].value == LastServiceTag(tags).value
        && forall j :: i < j < |tags| ==> tags[j].key != SERVICE_TAG_KEY
  {
    if tags != [] {
      var init := tags[..|tags| - 1];
      LastServiceTagSpec(init);
      if tags[|tags| - 1].key != SERVICE_TAG_KEY {
        if LastServiceTag(init).Some? {
          var i :| 0 <= i < |init| && init[i].key == SERVICE_TAG_KEY && init[i].value == LastServiceTag(init).value
            && forall j :: i < j < |init| ==> init[j].key != SERVICE_TAG_KEY;
          assert tags[i] == init[i];
        } else {
          forall i | 0 <= i < |tags|
            ensures tags[i].key != SERVICE_TAG_KEY
          {
            if i < |init| {
              assert tags[i] == init[i];
            }
          }
        }
      }
    }
  }

  /** The inner loop of _get_instance_type_counts_for_region: scan the tags
      in order, keeping the value of each service tag met. */
  method ServiceTag(tags: Option<seq<Tag>>) returns (service: string)
    ensures service == ServiceOf(tags)
  {
    service := UNKNOWN_SERVICE;
    if tags.Some? {
      var ts := tags.value;
      for j := 0 to |ts|
        invariant service == LastServiceTag(ts[..j]).GetOr(UNKNOWN_SERVICE)
      {
        if ts[j].key == SERVICE_TAG_KEY {
          service := ts[j].value;
        }
        assert ts[..j + 1][..j] == ts[..j];
      }
      assert ts[..|ts|] == ts;
    }
  }

  // ---------------------------------------------------------------------
  // Counting by key

  /** The keys of a sequence of (key, amount) entries. */
  function KeysOf<K(==)>(entries: seq<(K, int)>): set<K>
  {
    set e | e in entries :: e.0
  }

  /** The sum of the amounts entered under key k. */
  function SumFor<K(==)>(entries: seq<(K, int)>, k: K): int
  {
    if entries == [] then 0
    else SumFor(entries[..|entries| - 1], k) + (if entries[|entries| - 1].0 == k then entries[|entries| - 1].1 else 0)
  }

  /** The sum of all amounts. */
  function SumAll<K(==)>(entries: seq<(K, int)>): int
  {
    if entries == [] then 0 else SumAll(entries[..|entries| - 1]) + entries[|entries| - 1].1
  }

  /** The table `counts[key] = counts.get(key, 0) + amount` builds, entry
      after entry, from an empty dict. */
  function Accumulate<K(==)>(entries: seq<(K, int)>): map<K, int>
  {
    if entries == [] then map[]
    else
      var table := Accumulate(entries[..|entries| - 1]);
      var (k, v) := entries[|entries| - 1];
      table[k := (if k in table then table[k] else 0) + v]
  }

  /** The accumulated table holds exactly the keys entered, each with the sum
      of its amounts. */
  lemma {:induction false} AccumulateSpec<K>(entries: seq<(K, int)>)
    ensures Accumulate(entries).Keys == KeysOf(entries)
    ensures forall k :: k in Accumulate(entries) ==> Accumulate(entries)[k] == SumFor(entries, k)
  {
    if entries != [] {
      var init := entries[..|entries| - 1];
      AccumulateSpec(init);
      assert entries == init + [entries[|entries| - 1]];
      assert KeysOf(entries) == KeysOf(init) + {entries[|entries| - 1].0};
      forall k | k in Accumulate(entries)
        ensures Accumulate(entries)[k] == SumFor(entries, k)
      {
        if k !in Accumulate(init) {
          assert k !in KeysOf(init);
          SumForAbsent(init, k);
        }
      }
    }
  }

  /** A key never entered sums to zero. */
  lemma {:induction false} SumForAbsent<K>(entries: seq<(K, int)>, k: K)
    requires k !in KeysOf(entries)
    ensures SumFor(entries, k) == 0
  {
    if entries != [] {
      var init := entries[..|entries| - 1];
      assert KeysOf(init) <= KeysOf(entries);
      assert entries[|entries| - 1] in entries;
      SumForAbsent(init, k);
    }
  }

  /** The sum of a table's values. */
  ghost function Total<K>(table: map<K, int>): int
    decreases |table.Keys|
  {
    if table == map[] then 0
    else
      var k :| k in table;
      table[k] + Total(table - {k})
  }

  /** Any one key can be taken out of a total first. */
  lemma {:induction false} TotalRemove<K>(table: map<K, int>, k: K)
    requires k in table
    ensures Total(table) == table[k] + Total(table - {k})
    decreases |table.Keys|
  {
    var k' :| k' in table && Total(table) == table[k'] + Total(table - {k'});
    if k' != k {
      var rest := table - {k'};
      TotalRemove(rest, k);
      TotalRemove(table - {k}, k');
      assert rest - {k} == (table - {k}) - {k'};
    }
  }

  /** Accumulating entries loses no amount: the table's values sum to the
      sum of all amounts. */
  lemma {:induction false} AccumulateTotal<K>(entries: seq<(K, int)>)
    ensures Total(Accumulate(entries)) == SumAll(entries)
  {
    if entries != [] {
      var init := entries[..|entries| - 1];
      AccumulateTotal(init);
      var table := Accumulate(init);
      var (k, v) := entries[|entries| - 1];
      var next := table[k := (if k in table then table[k] else 0) + v];
      TotalRemove(next, k);
      if k in table {
        TotalRemove(table, k);
        assert next - {k} == table - {k};
      } else {
        assert next - {k} == table;
      }
    }
  }

  // ---------------------------------------------------------------------
  // Instance counts

  function KeyOf(instance: Instance): InstanceKey
  {
    InstanceKey(instance.az, ServiceOf(instance.tags), instance.instanceType)
  }

  /** Each instance's key, in order. */
  function InstanceKeys(instances: seq<Instance>): (r: seq<InstanceKey>)
    ensures |r| == |instances|
  {
    if instances == [] then []
    else InstanceKeys(instances[..|instances| - 1]) + [KeyOf(instances[|instances| - 1])]
  }

  /** Each key entered with amount 1. */
  function Ones<K(==)>(keys: seq<K>): (r: seq<(K, int)>)
    ensures |r| == |keys|
  {
    if keys == [] then [] else Ones(keys[..|keys| - 1]) + [(keys[|keys| - 1], 1)]
  }

  /** Entering ones counts occurrences. */
  lemma OnesCount<K>(keys: seq<K>)
    ensures KeysOf(Ones(keys)) == set k | k in keys
    ensures forall k :: SumFor(Ones(keys), k) == multiset(keys)[k]
    ensures SumAll(Ones(keys)) == |keys|
  {
    OnesKeys(keys);
    OnesSumFor(keys);
    OnesSumAll(keys);
  }

  lemma {:induction false} OnesKeys<K>(keys: seq<K>)
    ensures KeysOf(Ones(keys)) == set k | k in keys
  {
    if keys != [] {
      var init := keys[..|keys| - 1];
      var last := keys[|keys| - 1];
      OnesKeys(init);
      assert keys == init + [last];
      assert Ones(keys) == Ones(init) + [(last, 1)];
      assert KeysOf(Ones(keys)) == KeysOf(Ones(init)) + {last};
      assert (set k | k in keys) == (set k | k in init) + {last};
    }
  }

  lemma {:induction false} OnesSumFor<K>(keys: seq<K>)
    ensures forall k :: SumFor(Ones(keys), k) == multiset(keys)[k]
  {
    if keys != [] {
      var init := keys[..|keys| - 1];
      var last := keys[|keys| - 1];
      OnesSumFor(init);
      assert keys == init + [last];
      assert multiset(keys) == multiset(init) + multiset{last};
      assert Ones(keys) == Ones(init) + [(last, 1)];
    }
  }

  lemma {:induction false} OnesSumAll<K>(keys: seq<K>)
    ensures SumAll(Ones(keys)) == |keys|
  {
    if keys != [] {
      OnesSumAll(keys[..|keys| - 1]);
    }
  }

  /** The table the instance loop builds. */
  function InstanceCounts(instances: seq<Instance>): map<InstanceKey, int>
  {
    Accumulate(Ones(InstanceKeys(instances)))
  }

  /** The instance table has a key for every (zone, service, type) some
      instance has and no other, counts how many instances have it, and its
      counts add up to the number of instances. */
  lemma InstanceCountsSpec(instances: seq<Instance>)
    ensures forall k :: k in InstanceCounts(instances) <==> k in InstanceKeys(instances)
    ensures forall k :: k in InstanceCounts(instances) ==>
      InstanceCounts(instances)[k] == multiset(InstanceKeys(instances))[k]
    ensures Total(InstanceCounts(instances)) == |instances|
  {
    var keys := InstanceKeys(instances);
    AccumulateSpec(Ones(keys));
    OnesCount(keys);
    AccumulateTotal(Ones(keys));
  }

  /** _get_instance_type_counts_for_region over the instances the region
      reported. */
  method InstanceTypeCounts(instances: seq<Instance>) returns (counts: map<InstanceKey, int>)
    ensures counts == InstanceCounts(instances)
  {
    counts := map[];
    for i := 0 to |instances|
      invariant counts == InstanceCounts(instances[..i])
    {
      var instance := instances[i];
      var service := ServiceTag(instance.tags);
      var key := InstanceKey(instance.az, service, instance.instanceType);
      counts := counts[key := (if key in counts then counts[key] else 0) + 1];
      assert instances[..i + 1][..i] == instances[..i];
      assert InstanceKeys(instances[..i + 1]) == InstanceKeys(instances[..i]) + [key];
      assert Ones(InstanceKeys(instances[..i + 1]))[..i] == Ones(InstanceKeys(instances[..i]));
    }
    assert instances[..|instances|] == instances;
  }

  // ---------------------------------------------------------------------
  // Reserved instance counts

  /** Each reservation entered under its (zone, type) with its instance
      count. */
  function ReservationEntries(reservations: seq<Reservation>): (r: seq<(ReservationKey, int)>)
    ensures |r| == |reservations|
  {
    if reservations == [] then []
    else
      var last := reservations[|reservations| - 1];
      ReservationEntries(reservations[..|reservations| - 1])
        + [(ReservationKey(last.az, last.instanceType), last.instanceCount)]
  }

  /** The number of instances reserved under key k. */
  function ReservedFor(reservations: seq<Reservation>, k: ReservationKey): int
  {
    if reservations == [] then 0
    else
      var last := reservations[|reservations| - 1];
      ReservedFor(reservations[..|reservations| - 1], k)
        + (if ReservationKey(last.az, last.instanceType) == k then last.instanceCount else 0)
  }

  /** Whether some reservation is for key k. */
  predicate Reserves(reservations: seq<Reservation>, k: ReservationKey)
  {
    exists i :: 0 <= i < |reservations| && ReservationKey(reservations[i].az, reservations[i].instanceType) == k
  }

  lemma {:induction false} ReservationEntriesSpec(reservations: seq<Reservation>, k: ReservationKey)
    ensures SumFor(ReservationEntries(reservations), k) == ReservedFor(reservations, k)
    ensures k in KeysOf(ReservationEntries(reservations)) <==> Reserves(reservations, k)
  {
    if reservations != [] {
      var init := reservations[..|reservations| - 1];
      var last := reservations[|reservations| - 1];
      var lastKey := ReservationKey(last.az, last.instanceType);
      ReservationEntriesSpec(init, k);
      var entries := ReservationEntries(reservations);
      assert entries[..|entries| - 1] == ReservationEntries(init);
      assert KeysOf(entries) == KeysOf(ReservationEntries(init)) + {lastKey};
      if Reserves(reservations, k) && k != lastKey {
        var i :| 0 <= i < |reservations| && ReservationKey(reservations[i].az, reservations[i].instanceType) == k;
        assert init[i] == reservations[i];
      }
      if Reserves(init, k) {
        var i :| 0 <= i < |init| && ReservationKey(init[i].az, init[i].instanceType) == k;
        assert init[i] == reservations[i];
      }
    }
  }

  /** The table the reservation loop builds. */
  function ReservedCounts(reservations: seq<Reservation>): map<ReservationKey, int>
  {
    Accumulate(ReservationEntries(reservations))
  }

  /** The reservation table has a key for every (zone, type) some
      reservation is for and no other, each holding the sum of the instance
      counts reserved under it. */
  lemma ReservedCountsSpec(reservations: seq<Reservation>)
    ensures forall k :: k in ReservedCounts(reservations) <==> Reserves(reservations, k)
    ensures forall k :: k in ReservedCounts(reservations) ==>
      ReservedCounts(reservations)[k] == ReservedFor(reservations, k)
  {
    AccumulateSpec(ReservationEntries(reservations));
    forall k
      ensures k in ReservedCounts(reservations) <==> Reserves(reservations, k)
      ensures k in ReservedCounts(reservations) ==> ReservedCounts(reservations)[k] == ReservedFor(reservations, k)
    {
      ReservationEntriesSpec(reservations, k);
    }
  }

  /** _get_reserved_instance_counts_for_region over the reservations the
      region reported. */
  method ReservedInstanceCounts(reservations: seq<Reservation>) returns (counts: map<ReservationKey, int>)
    ensures counts == ReservedCounts(reservations)
  {
    counts := map[];
    for i := 0 to |reservations|
      invariant counts == ReservedCounts(reservations[..i])
    {
      var ri := reservations[i];
      var key := ReservationKey(ri.az, ri.instanceType);
      counts := counts[key := (if key in counts then counts[key] else 0) + ri.instanceCount];
      assert reservations[..i + 1][..i] == reservations[..i];
    }
    assert reservations[..|reservations|] == reservations;
  }

  // ---------------------------------------------------------------------
  // Merging the regions

  /** dict.update applied to each table in turn, starting from an empty
      dict: a key takes its value from the last table that has it. */
  function Merge<K(==)>(tables: seq<map<K, int>>): map<K, int>
  {
    if tables == [] then map[] else Merge(tables[..|tables| - 1]) + tables[|tables| - 1]
  }

  /** Some table has key k. */
  ghost predicate InSome<K>(tables: seq<map<K, int>>, k: K)
  {
    exists i :: 0 <= i < |tables| && k in tables[i]
  }

  /** The merged table's keys are the union of the tables' keys. */
  lemma {:induction false} MergeKeys<K>(tables: seq<map<K, int>>)
    ensures forall k :: k in Merge(tables) <==> InSome(tables, k)
  {
    if tables != [] {
      var init := tables[..|tables| - 1];
      MergeKeys(init);
      forall k | k in Merge(tables)
        ensures InSome(tables, k)
      {
        if k !in tables[|tables| - 1] {
          assert InSome(init, k);
          var i :| 0 <= i < |init| && k in init[i];
          assert tables[i] == init[i];
        }
      }
      forall k | InSome(tables, k)
        ensures k in Merge(tables)
      {
        var i :| 0 <= i < |tables| && k in tables[i];
        if i < |init| {
          assert tables[i] == init[i];
          assert InSome(init, k);
        }
      }
    }
  }

  /** On a key several tables share, the merged value is the last one's, not
      a sum: it comes from a table that has the key, and no later table
      has it. */
  lemma {:induction false} MergeLastWins<K>(tables: seq<map<K, int>>, k: K)
    requires k in Merge(tables)
    ensures exists i :: 0 <= i < |tables| && k in tables[i] && Merge(tables)[k] == tables[i][k]
                        && (forall j :: i < j < |tables| ==> k !in tables[j])
  {
    var init := tables[..|tables| - 1];
    if k !in tables[|tables| - 1] {
      MergeLastWins(init, k);
      var i :| 0 <= i < |init| && k in init[i] && Merge(init)[k] == init[i][k]
        && forall j :: i < j < |init| ==> k !in init[j];
      assert tables[i] == init[i];
      forall j | i < j < |tables|
        ensures k !in tables[j]
      {
        if j < |init| {
          assert tables[j] == init[j];
        }
      }
    }
  }

  /** Two regions reporting the same table merge to that table: counts
      under a key both regions have are not added. With one instance in
      each, its key is counted 1, not 2. */
  lemma MergeSameTwice(instance: Instance)
    ensures var table := InstanceCounts([instance]);
      Merge([table, table]) == table == map[KeyOf(instance) := 1]
  {
    var key := KeyOf(instance);
    assert [instance][..0] == [];
    assert InstanceKeys([instance]) == [key];
    assert [key][..0] == [];
    assert Ones(InstanceKeys([instance])) == [(key, 1)];
    assert [(key, 1)][..0] == [];
    var table := InstanceCounts([instance]);
    assert Accumulate([(key, 1)][..0]) == map[];
    assert table == Accumulate([(key, 1)]);
    assert table == map[key := 1];
    assert [table, table][..1] == [table];
    assert [table][..0] == [];
    assert Merge([table]) == table by {
      assert map[] + table == table;
    }
    assert (table + table).Keys == table.Keys;
    assert table + table == table;
  }

  /** Tables with pairwise disjoint keys: for zone-keyed tables, regions
      whose zone names differ. */
  ghost predicate DisjointKeys<K>(tables: seq<map<K, int>>)
  {
    forall i, j, k :: 0 <= i < j < |tables| && k in tables[i] ==> k !in tables[j]
  }

  /** The sum of all tables' totals. */
  ghost function TotalOfAll<K>(tables: seq<map<K, int>>): int
  {
    if tables == [] then 0 else TotalOfAll(tables[..|tables| - 1]) + Total(tables[|tables| - 1])
  }

  lemma UnionRemove<K>(a: map<K, int>, b: map<K, int>, k: K)
    requires a.Keys !! b.Keys && k in b
    ensures (a + b) - {k} == a + (b - {k})
    ensures a.Keys !! (b - {k}).Keys
  {
  }

  /** The total of a union of tables with disjoint keys is the sum of their
      totals. */
  lemma {:induction false} TotalUnion<K>(a: map<K, int>, b: map<K, int>)
    requires a.Keys !! b.Keys
    ensures Total(a + b) == Total(a) + Total(b)
    decreases |b.Keys|
  {
    if b != map[] {
      var k :| k in b;
      var rest := b - {k};
      TotalRemove(a + b, k);
      TotalRemove(b, k);
      UnionRemove(a, b, k);
      TotalUnion(a, rest);
    } else {
      assert a + b == a;
    }
  }

  /** When no key is shared, replacing loses nothing: the merged table's
      counts add up to the sum of the regions' counts. */
  lemma {:induction false} MergeDisjointTotal<K>(tables: seq<map<K, int>>)
    requires DisjointKeys(tables)
    ensures Total(Merge(tables)) == TotalOfAll(tables)
  {
    if tables != [] {
      var init := tables[..|tables| - 1];
      var last := tables[|tables| - 1];
      assert DisjointKeys(init) by {
        forall i, j, k | 0 <= i < j < |init| && k in init[i]
          ensures k !in init[j]
        {
          assert tables[i] == init[i] && tables[j] == init[j];
        }
      }
      MergeDisjointTotal(init);
      MergeKeys(init);
      forall k | k in Merge(init)
        ensures k !in last
      {
        assert InSome(init, k);
        var i :| 0 <= i < |init| && k in init[i];
        assert tables[i] == init[i];
      }
      TotalUnion(Merge(init), last);
    }
  }

  /** The instance table of each region, in order. */
  function RegionInstanceCounts(regions: seq<RegionData>): (r: seq<map<InstanceKey, int>>)
    ensures |r| == |regions|
  {
    if regions == [] then []
    else RegionInstanceCounts(regions[..|regions| - 1]) + [InstanceCounts(regions[|regions| - 1].instances)]
  }

  /** The reservation table of each region, in order. */
  function RegionReservedCounts(regions: seq<RegionData>): (r: seq<map<ReservationKey, int>>)
    ensures |r| == |regions|
  {
    if regions == [] then []
    else RegionReservedCounts(regions[..|regions| - 1]) + [ReservedCounts(regions[|regions| - 1].reservations)]
  }

  /** One more region appends its tables to the per-region lists. */
  lemma RegionCountsStep(regions: seq<RegionData>, i: nat)
    requires i < |regions|
    ensures RegionInstanceCounts(regions[..i + 1]) == RegionInstanceCounts(regions[..i]) + [InstanceCounts(regions[i].instances)]
    ensures RegionReservedCounts(regions[..i + 1]) == RegionReservedCounts(regions[..i]) + [ReservedCounts(regions[i].reservations)]
  {
    assert regions[..i + 1][..i] == regions[..i];
  }

  /** Merging one more table is one more dict.update. */
  lemma MergeStep<K>(tables: seq<map<K, int>>, t: map<K, int>)
    ensures Merge(tables + [t]) == Merge(tables) + t
  {
    assert (tables + [t])[..|tables|] == tables;
  }

  /** The region loop of ImportEC2InstanceData.execute: each region's two
      tables are folded into the running tables with dict.update. */
  method ImportInstanceData(regions: seq<RegionData>)
    returns (instanceCounts: map<InstanceKey, int>, riCounts: map<ReservationKey, int>)
    ensures instanceCounts == Merge(RegionInstanceCounts(regions))
    ensures riCounts == Merge(RegionReservedCounts(regions))
  {
    instanceCounts, riCounts := map[], map[];
    for i := 0 to |regions|
      invariant instanceCounts == Merge(RegionInstanceCounts(regions[..i]))
      invariant riCounts == Merge(RegionReservedCounts(regions[..i]))
    {
      var regionInstances := InstanceTypeCounts(regions[i].instances);
      var regionReserved := ReservedInstanceCounts(regions[i].reservations);
      instanceCounts := instanceCounts + regionInstances;
      riCounts := riCounts + regionReserved;
      RegionCountsStep(regions, i);
      MergeStep(RegionInstanceCounts(regions[..i]), regionInstances);
      MergeStep(RegionReservedCounts(regions[..i]), regionReserved);
    }
    assert regions[..|regions|] == regions;
  }
}
