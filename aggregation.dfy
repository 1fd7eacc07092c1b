/** The aggregation (`convertEntityMap`): folds the records into
    entity -> { entryType, count, project -> dataset -> roles }. */
module Aggregation {
  import opened EntityTypes
  import opened Validation

  /** dataset -> roles granted on it, in the order they were pushed. */
  type Datasets = map<string, seq<string>>

  /** project -> its datasets. */
  type Projects = map<string, Datasets>

  /** What the map holds for one entity. */
  datatype Entry = Entry(entryType: EntityType, count: nat, projects: Projects)

  /** The accumulator object: its entries by entity, and its keys in the
      order they were inserted, which is the order `Object.entries` lists
      them in. */
  datatype EntityMap = EntityMap(entries: map<string, Entry>, order: seq<string>)

  /** The roles stored at (project, dataset), none if there is no such slot. */
  function RolesAt(projects: Projects, p: string, d: string): seq<string> {
    if p in projects && d in projects[p] then projects[p][d] else []
  }

  /** The (project, dataset) slots of an entity. */
  ghost function DatasetPairs(projects: Projects): set<(string, string)> {
    set p, d | p in projects && d in projects[p] :: (p, d)
  }

  /** The slots whose project is in `ps`. */
  ghost function PairsUnder(projects: Projects, ps: set<string>): set<(string, string)> {
    set p, d | p in ps && p in projects && d in projects[p] :: (p, d)
  }

  // ---------------------------------------------------------------------
  // Reference definitions: what the map should hold, read off the records.

  /** The non-empty entities of `metas`, in order of first appearance. */
  function Entities(metas: seq<Meta>): seq<string> {
    if metas == [] then []
    else
      var pre := Entities(metas[..|metas| - 1]);
      var e := metas[|metas| - 1].entity;
      if e != "" && e !in pre then pre + [e] else pre
  }

  /** The roles of the records for entity `e`, project `p` and dataset `d`,
      in input order, duplicates kept. */
  function RolesOf(metas: seq<Meta>, e: string, p: string, d: string): seq<string> {
    if metas == [] then []
    else
      var m := metas[|metas| - 1];
      RolesOf(metas[..|metas| - 1], e, p, d)
        + (if m.entity == e && m.project == p && m.dataset == d then [m.role] else [])
  }

  /** The projects of the records for entity `e`. */
  ghost function ProjectsOf(metas: seq<Meta>, e: string): set<string> {
    if metas == [] then {}
    else
      var m := metas[|metas| - 1];
      ProjectsOf(metas[..|metas| - 1], e) + (if m.entity == e then {m.project} else {})
  }

  /** The distinct (project, dataset) pairs of the records for entity `e`. */
  ghost function PairsOf(metas: seq<Meta>, e: string): set<(string, string)> {
    if metas == [] then {}
    else
      var m := metas[|metas| - 1];
      PairsOf(metas[..|metas| - 1], e) + (if m.entity == e then {(m.project, m.dataset)} else {})
  }

  /** The number of records for entity `e`. */
  function RecordCount(metas: seq<Meta>, e: string): nat {
    if metas == [] then 0
    else RecordCount(metas[..|metas| - 1], e) + (if metas[|metas| - 1].entity == e then 1 else 0)
  }

  /** The entity type carried by the first record for `e`. */
  function FirstType(metas: seq<Meta>, e: string): EntityType
    requires e in Entities(metas)
  {
    var pre := metas[..|metas| - 1];
    if e in Entities(pre) then FirstType(pre, e) else metas[|metas| - 1].entityType
  }

  /** `entry` is what the map must hold for entity `e` after `metas`. */
  ghost predicate EntryRepresents(entry: Entry, metas: seq<Meta>, e: string) {
    && e in Entities(metas)
    && entry.entryType == FirstType(metas, e)
    && entry.projects.Keys == ProjectsOf(metas, e)
    && DatasetPairs(entry.projects) == PairsOf(metas, e)
    && (forall p, d :: RolesAt(entry.projects, p, d) == RolesOf(metas, e, p, d))
    && entry.count == |PairsOf(metas, e)|
  }

  /** `acc` is exactly the aggregation of `metas`. */
  ghost predicate Represents(acc: EntityMap, metas: seq<Meta>) {
    && acc.order == Entities(metas)
    && (forall e :: e in acc.entries <==> e in Entities(metas))
    && (forall e :: e in acc.entries ==> EntryRepresents(acc.entries[e], metas, e))
  }

  // ---------------------------------------------------------------------
  // Facts about the reference definitions.

  /** How each reference definition grows by one record. */
  lemma AppendOne(seen: seq<Meta>, m: Meta, e: string)
    ensures Entities(seen + [m]) ==
              if m.entity != "" && m.entity !in Entities(seen) then Entities(seen) + [m.entity]
              else Entities(seen)
    ensures forall p, d :: RolesOf(seen + [m], e, p, d) ==
              RolesOf(seen, e, p, d) + (if m.entity == e && m.project == p && m.dataset == d then [m.role] else [])
    ensures ProjectsOf(seen + [m], e) == ProjectsOf(seen, e) + (if m.entity == e then {m.project} else {})
    ensures PairsOf(seen + [m], e) == PairsOf(seen, e) + (if m.entity == e then {(m.project, m.dataset)} else {})
    ensures e in Entities(seen) ==> FirstType(seen + [m], e) == FirstType(seen, e)
  {
    assert (seen + [m])[..|seen|] == seen;
  }

  /** An entity that is not listed has no records. */
  lemma {:induction false} AbsentEntity(metas: seq<Meta>, e: string)
    requires e != "" && e !in Entities(metas)
    ensures ProjectsOf(metas, e) == {} && PairsOf(metas, e) == {}
    ensures forall p, d :: RolesOf(metas, e, p, d) == []
  {
    if metas != [] {
      AbsentEntity(metas[..|metas| - 1], e);
    }
  }

  /** The map has a key for `e` exactly when `e` is non-empty and some
      record carries it. */
  lemma {:induction false} EntitiesAreRecordEntities(metas: seq<Meta>, e: string)
    ensures e in Entities(metas) <==> e != "" && exists k :: 0 <= k < |metas| && metas[k].entity == e
  {
    if metas != [] {
      var pre := metas[..|metas| - 1];
      EntitiesAreRecordEntities(pre, e);
      if e in Entities(pre) {
        var k :| 0 <= k < |pre| && pre[k].entity == e;
        assert metas[k].entity == e;
      }
      if e != "" && (exists k :: 0 <= k < |metas| && metas[k].entity == e) {
        var k :| 0 <= k < |metas| && metas[k].entity == e;
        if k < |pre| {
          assert pre[k].entity == e;
        }
      }
    }
  }

  /** The empty entity is never listed. */
  lemma {:induction false} EntitiesNonEmpty(metas: seq<Meta>)
    ensures "" !in Entities(metas)
  {
    if metas != [] {
      EntitiesNonEmpty(metas[..|metas| - 1]);
    }
  }

  /** Each entity is listed once. */
  lemma {:induction false} EntitiesDistinct(metas: seq<Meta>)
    ensures forall i, j :: 0 <= i < j < |Entities(metas)| ==> Entities(metas)[i] != Entities(metas)[j]
  {
    if metas != [] {
      EntitiesDistinct(metas[..|metas| - 1]);
    }
  }

  /** A pair is an entity's exactly when some record of that entity has it. */
  lemma {:induction false} PairsAreRecordPairs(metas: seq<Meta>, e: string, p: string, d: string)
    ensures (p, d) in PairsOf(metas, e) <==>
              exists k :: 0 <= k < |metas| && metas[k].entity == e && metas[k].project == p && metas[k].dataset == d
  {
    if metas != [] {
      var pre := metas[..|metas| - 1];
      PairsAreRecordPairs(pre, e, p, d);
      if (p, d) in PairsOf(pre, e) {
        var k :| 0 <= k < |pre| && pre[k].entity == e && pre[k].project == p && pre[k].dataset == d;
        assert metas[k] == pre[k];
      }
      if exists k :: 0 <= k < |metas| && metas[k].entity == e && metas[k].project == p && metas[k].dataset == d {
        var k :| 0 <= k < |metas| && metas[k].entity == e && metas[k].project == p && metas[k].dataset == d;
        if k < |pre| {
          assert pre[k] == metas[k];
        }
      }
    }
  }

  /** An entity has no more distinct (project, dataset) pairs than records:
      several roles on one dataset count once. */
  lemma {:induction false} PairsAtMostRecords(metas: seq<Meta>, e: string)
    ensures |PairsOf(metas, e)| <= RecordCount(metas, e)
  {
    if metas != [] {
      var pre := metas[..|metas| - 1];
      var m := metas[|metas| - 1];
      PairsAtMostRecords(pre, e);
      if m.entity == e {
        assert |PairsOf(pre, e) + {(m.project, m.dataset)}| <= |PairsOf(pre, e)| + 1;
      }
    }
  }

  /** Roles are an order-preserving projection of the records: the roles of
      two runs of records are those of the first run followed by those of
      the second. */
  lemma {:induction false} RolesOfConcat(a: seq<Meta>, b: seq<Meta>, e: string, p: string, d: string)
    ensures RolesOf(a + b, e, p, d) == RolesOf(a, e, p, d) + RolesOf(b, e, p, d)
    decreases |b|
  {
    if b == [] {
      assert a + b == a;
    } else {
      var b' := b[..|b| - 1];
      RolesOfConcat(a, b', e, p, d);
      assert (a + b)[..|a + b| - 1] == a + b';
    }
  }

  /** The entity type of an entity is that of its first record. */
  lemma {:induction false} FirstTypeIsFirstRecord(metas: seq<Meta>, k: nat)
    requires k < |metas| && metas[k].entity != ""
    requires forall j :: 0 <= j < k ==> metas[j].entity != metas[k].entity
    ensures metas[k].entity in Entities(metas)
    ensures FirstType(metas, metas[k].entity) == metas[k].entityType
  {
    var e := metas[k].entity;
    var pre := metas[..|metas| - 1];
    EntitiesAreRecordEntities(metas, e);
    if k < |pre| {
      assert pre[k] == metas[k];
      FirstTypeIsFirstRecord(pre, k);
    } else {
      EntitiesAreRecordEntities(pre, e);
      assert forall j :: 0 <= j < |pre| ==> pre[j].entity == metas[j].entity;
    }
  }

  /** Later records never change an entity's type. */
  lemma {:induction false} FirstTypeStable(metas: seq<Meta>, more: seq<Meta>, e: string)
    requires e in Entities(metas)
    ensures e in Entities(metas + more)
    ensures FirstType(metas + more, e) == FirstType(metas, e)
    decreases |more|
  {
    if more == [] {
      assert metas + more == metas;
    } else {
      var more' := more[..|more| - 1];
      FirstTypeStable(metas, more', e);
      assert metas + more == (metas + more') + [more[|more| - 1]];
      AppendOne(metas + more', more[|more| - 1], e);
    }
  }

  // ---------------------------------------------------------------------
  // Counting the datasets of an entity.

  /** |{(p, d) | d in ds}| == |ds|. */
  lemma {:induction false} TaggedCard(p: string, ds: set<string>)
    ensures |set d | d in ds :: (p, d)| == |ds|
    decreases |ds|
  {
    if ds != {} {
      var x :| x in ds;
      TaggedCard(p, ds - {x});
      assert (set d | d in ds :: (p, d)) == (set d | d in ds - {x} :: (p, d)) + {(p, x)};
    }
  }

  /** Adding one project to `ps` adds its datasets' slots. */
  lemma PairsUnderAdd(projects: Projects, ps: set<string>, p: string)
    requires p in projects && p !in ps
    ensures |PairsUnder(projects, ps + {p})| == |PairsUnder(projects, ps)| + |projects[p]|
  {
    var tagged := set d | d in projects[p].Keys :: (p, d);
    assert PairsUnder(projects, ps + {p}) == PairsUnder(projects, ps) + tagged;
    assert PairsUnder(projects, ps) !! tagged;
    TaggedCard(p, projects[p].Keys);
  }

  /** `Object.values(projects).map(p => Object.keys(p).length).reduce(+, 0)`:
      the number of distinct (project, dataset) slots. */
  method CountDatasets(projects: Projects) returns (n: nat)
    ensures n == |DatasetPairs(projects)|
  {
    n := 0;
    var rest := projects.Keys;
    while rest != {}
      invariant rest <= projects.Keys
      invariant n == |PairsUnder(projects, projects.Keys - rest)|
      decreases |rest|
    {
      var p :| p in rest;
      PairsUnderAdd(projects, projects.Keys - rest, p);
      assert projects.Keys - (rest - {p}) == (projects.Keys - rest) + {p};
      n := n + |projects[p]|;
      rest := rest - {p};
    }
    assert projects.Keys - rest == projects.Keys;
    assert PairsUnder(projects, projects.Keys) == DatasetPairs(projects);
  }

  // ---------------------------------------------------------------------
  // The fold.

  /** Slots after one role is pushed at (p, d). */
  lemma PushSlots(prev: Projects, p: string, d: string, roles: seq<string>)
    ensures var ds := if p in prev then prev[p] else map[];
            var next := prev[p := ds[d := roles]];
            && next.Keys == prev.Keys + {p}
            && DatasetPairs(next) == DatasetPairs(prev) + {(p, d)}
  {
    var ds := if p in prev then prev[p] else map[];
    var next := prev[p := ds[d := roles]];
    forall x, y | (x, y) in DatasetPairs(prev) + {(p, d)}
      ensures (x, y) in DatasetPairs(next)
    {
      assert x in next && y in next[x];
    }
  }

  /** A record of another entity leaves an entity's entry as it was. */
  lemma OtherEntityKept(entry: Entry, seen: seq<Meta>, m: Meta, e: string)
    requires e in Entities(seen) && m.entity != e
    requires EntryRepresents(entry, seen, e)
    ensures EntryRepresents(entry, seen + [m], e)
  {
    AppendOne(seen, m, e);
  }

  /** Projects and datasets that existed before the push all still do, and
      the record's own project and slot are added. */
  lemma PushedSlots(before: Entry, seen: seq<Meta>, m: Meta, projects: Projects)
    requires m.entity != ""
    requires m.entity in Entities(seen) ==> EntryRepresents(before, seen, m.entity)
    requires m.entity !in Entities(seen) ==> before == Entry(m.entityType, 0, map[])
    requires var ds := if m.project in before.projects then before.projects[m.project] else map[];
             projects == before.projects[m.project := ds[m.dataset := RolesAt(before.projects, m.project, m.dataset) + [m.role]]]
    ensures projects.Keys == ProjectsOf(seen + [m], m.entity)
    ensures DatasetPairs(projects) == PairsOf(seen + [m], m.entity)
  {
    var e := m.entity;
    AppendOne(seen, m, e);
    if e !in Entities(seen) {
      AbsentEntity(seen, e);
    }
    PushSlots(before.projects, m.project, m.dataset, RolesAt(before.projects, m.project, m.dataset) + [m.role]);
  }

  /** Pushing role `r` at (p, d) appends it to that slot and to no other. */
  lemma RolesAtPush(prev: Projects, p: string, d: string, r: string, x: string, y: string)
    ensures var ds := if p in prev then prev[p] else map[];
            RolesAt(prev[p := ds[d := RolesAt(prev, p, d) + [r]]], x, y) ==
              RolesAt(prev, x, y) + (if x == p && y == d then [r] else [])
  {
  }

  /** One slot's roles after the push are the records' roles. */
  lemma PushedRolesAt(before: Entry, seen: seq<Meta>, m: Meta, projects: Projects, x: string, y: string)
    requires m.entity != ""
    requires m.entity in Entities(seen) ==> EntryRepresents(before, seen, m.entity)
    requires m.entity !in Entities(seen) ==> before == Entry(m.entityType, 0, map[])
    requires var ds := if m.project in before.projects then before.projects[m.project] else map[];
             projects == before.projects[m.project := ds[m.dataset := RolesAt(before.projects, m.project, m.dataset) + [m.role]]]
    ensures RolesAt(projects, x, y) == RolesOf(seen + [m], m.entity, x, y)
  {
    if m.entity !in Entities(seen) {
      AbsentEntity(seen, m.entity);
    }
    assert RolesAt(before.projects, x, y) == RolesOf(seen, m.entity, x, y);
    RolesAtPush(before.projects, m.project, m.dataset, m.role, x, y);
    AppendOne(seen, m, m.entity);
  }

  /** The entry of the record's own entity after its role is pushed. */
  lemma PushedEntry(before: Entry, seen: seq<Meta>, m: Meta, projects: Projects, count: nat)
    requires m.entity != ""
    requires m.entity in Entities(seen) ==> EntryRepresents(before, seen, m.entity)
    requires m.entity !in Entities(seen) ==> before == Entry(m.entityType, 0, map[])
    requires var ds := if m.project in before.projects then before.projects[m.project] else map[];
             projects == before.projects[m.project := ds[m.dataset := RolesAt(before.projects, m.project, m.dataset) + [m.role]]]
    requires count == |DatasetPairs(projects)|
    ensures EntryRepresents(Entry(before.entryType, count, projects), seen + [m], m.entity)
  {
    AppendOne(seen, m, m.entity);
    PushedSlots(before, seen, m, projects);
    forall x, y
      ensures RolesAt(projects, x, y) == RolesOf(seen + [m], m.entity, x, y)
    {
      PushedRolesAt(before, seen, m, projects, x, y);
    }
  }

  /** Replacing the entry of the record's entity by one that represents the
      records so far, and appending the entity to the order when it is new,
      keeps the map an exact aggregation. */
  lemma ReplaceEntry(acc: EntityMap, seen: seq<Meta>, m: Meta, entry: Entry)
    requires m.entity != "" && Represents(acc, seen)
    requires EntryRepresents(entry, seen + [m], m.entity)
    ensures Represents(EntityMap(acc.entries[m.entity := entry],
                                 if m.entity in acc.entries then acc.order else acc.order + [m.entity]),
                       seen + [m])
  {
    var next := EntityMap(acc.entries[m.entity := entry],
                          if m.entity in acc.entries then acc.order else acc.order + [m.entity]);
    AppendOne(seen, m, m.entity);
    assert next.order == Entities(seen + [m]);
    forall x | x in next.entries
      ensures EntryRepresents(next.entries[x], seen + [m], x)
    {
      if x != m.entity {
        OtherEntityKept(acc.entries[x], seen, m, x);
      }
    }
  }

  /** One whole `reduce` step on the reference side: the record's entity,
      found or freshly created, gets the role pushed at its slot and its
      datasets recounted, and the map stays an exact aggregation. */
  lemma PushedRepresents(acc: EntityMap, seen: seq<Meta>, m: Meta, entry: Entry, projects: Projects, count: nat)
    requires m.entity != "" && Represents(acc, seen)
    requires entry == if m.entity in acc.entries then acc.entries[m.entity] else Entry(m.entityType, 0, map[])
    requires var ds := if m.project in entry.projects then entry.projects[m.project] else map[];
             projects == entry.projects[m.project := ds[m.dataset := RolesAt(entry.projects, m.project, m.dataset) + [m.role]]]
    requires count == |DatasetPairs(projects)|
    ensures Represents(EntityMap(acc.entries[m.entity := Entry(entry.entryType, count, projects)],
                                 if m.entity in acc.entries then acc.order else acc.order + [m.entity]),
                       seen + [m])
  {
    PushedEntry(entry, seen, m, projects, count);
    ReplaceEntry(acc, seen, m, Entry(entry.entryType, count, projects));
  }

  /** The `reduce` callback for a record whose entity is non-empty: create
      the entity, project and dataset on first encounter, push the role and
      recount the entity's datasets. */
  method Accumulate(acc: EntityMap, meta: Meta, ghost seen: seq<Meta>) returns (next: EntityMap)
    requires meta.entity != ""
    requires Represents(acc, seen)
    ensures Represents(next, seen + [meta])
  {
    var e, p, d := meta.entity, meta.project, meta.dataset;
    // the entity's entry, and the key order, created on first encounter
    var entry, order := Entry(meta.entityType, 0, map[]), acc.order + [e];
    if e in acc.entries {
      entry, order := acc.entries[e], acc.order;
    }
    // the project's datasets and the dataset's roles, empty on first encounter
    var datasets := if p in entry.projects then entry.projects[p] else map[];
    var roles := if d in datasets then datasets[d] else [];
    var projects := entry.projects[p := datasets[d := roles + [meta.role]]];
    var count := CountDatasets(projects);
    next := EntityMap(acc.entries[e := Entry(entry.entryType, count, projects)], order);
    PushedRepresents(acc, seen, meta, entry, projects, count);
  }

  /** A record with an empty entity changes nothing (`filter(!!meta.entity)`). */
  lemma SkipAnonymous(acc: EntityMap, seen: seq<Meta>, meta: Meta)
    requires meta.entity == ""
    requires Represents(acc, seen)
    ensures Represents(acc, seen + [meta])
  {
    AppendOne(seen, meta, "");
    EntitiesNonEmpty(seen);
    forall x | x in acc.entries
      ensures EntryRepresents(acc.entries[x], seen + [meta], x)
    {
      OtherEntityKept(acc.entries[x], seen, meta, x);
    }
  }

  /** `convertEntityMap`: the records with a non-empty entity, folded in
      input order. */
  method ConvertEntityMap(metas: seq<Meta>) returns (acc: EntityMap)
    ensures Represents(acc, metas)
  {
    acc := EntityMap(map[], []);
    for i := 0 to |metas|
      invariant Represents(acc, metas[..i])
    {
      assert metas[..i + 1] == metas[..i] + [metas[i]];
      if metas[i].entity != "" {
        acc := Accumulate(acc, metas[i], metas[..i]);
      } else {
        SkipAnonymous(acc, metas[..i], metas[i]);
      }
    }
    assert metas[..|metas|] == metas;
  }
}
