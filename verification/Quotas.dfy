/** Quotas: a counter in the project's record stands in for counting the rows,
    so that the resource tables need not be locked.
 */
module Quotas {
  import opened Wrappers

  datatype Resource = LoadBalancer | Listener | Pool | HealthMonitor | Member | L7Policy | L7Rule

  type Project = string
  type RowId = nat

  const QUOTA_UNLIMITED: int := -1

  /** One record a project; a missing entry is NULL. */
  datatype Record = Record(limits: map<Resource, int>, inUse: map<Resource, int>)

  datatype Row = Row(kind: Resource, project: Project, deleted: bool)

  datatype Config = Config(noauth: bool, defaults: map<Resource, int>)

  datatype Answer = Met | Available | MissingProject

  // ---- counting rows

  predicate IsLive(rows: map<RowId, Row>, id: RowId, kind: Resource, project: Project) {
    id in rows && rows[id].kind == kind && rows[id].project == project && !rows[id].deleted
  }

  function LiveIds(rows: map<RowId, Row>, kind: Resource, project: Project): set<RowId> {
    set id | id in rows && IsLive(rows, id, kind, project)
  }

  function Live(rows: map<RowId, Row>, kind: Resource, project: Project): nat {
    |LiveIds(rows, kind, project)|
  }

  function Inserted(rows: map<RowId, Row>, ids: set<RowId>, kind: Resource, project: Project): map<RowId, Row> {
    rows + map id | id in ids :: Row(kind, project, false)
  }

  function Removed(rows: map<RowId, Row>, ids: set<RowId>): map<RowId, Row> {
    map id | id in rows :: if id in ids then rows[id].(deleted := true) else rows[id]
  }

  lemma InsertedIsLive(rows: map<RowId, Row>, ids: set<RowId>, kind: Resource, project: Project, k: Resource, p: Project,
    id: RowId)
    requires ids !! rows.Keys
    ensures id in LiveIds(Inserted(rows, ids, kind, project), k, p)
       <==> id in LiveIds(rows, k, p) || (id in ids && k == kind && p == project)
  {
  }

  lemma OnlyTheirOwn(rows: map<RowId, Row>, kind: Resource, project: Project, k: Resource, p: Project, id: RowId)
    ensures id in LiveIds(rows, k, p) ==> id in rows.Keys && (id in LiveIds(rows, kind, project) ==> k == kind && p == project)
  {
  }

  lemma LiveAfterInsert(rows: map<RowId, Row>, ids: set<RowId>, kind: Resource, project: Project, k: Resource, p: Project)
    requires ids !! rows.Keys
    ensures Live(Inserted(rows, ids, kind, project), k, p)
         == Live(rows, k, p) + if k == kind && p == project then |ids| else 0
  {
    hide LiveIds, Inserted;
    var before, after := LiveIds(rows, k, p), LiveIds(Inserted(rows, ids, kind, project), k, p);
    var added := if k == kind && p == project then ids else {};
    if id :| id in before && id in added {
      OnlyTheirOwn(rows, kind, project, k, p, id);
    }
    forall id ensures id in after <==> id in before || id in added {
      InsertedIsLive(rows, ids, kind, project, k, p, id);
    }
    assert after == before + added && before !! added;
  }

  lemma RemovedIsNotLive(rows: map<RowId, Row>, ids: set<RowId>, k: Resource, p: Project, id: RowId)
    ensures id in LiveIds(Removed(rows, ids), k, p) <==> id in LiveIds(rows, k, p) && id !in ids
  {
  }

  lemma LiveAfterRemove(rows: map<RowId, Row>, ids: set<RowId>, kind: Resource, project: Project, k: Resource, p: Project)
    requires ids <= LiveIds(rows, kind, project)
    ensures Live(Removed(rows, ids), k, p) == Live(rows, k, p) - if k == kind && p == project then |ids| else 0
  {
    hide LiveIds, Removed;
    var before, after := LiveIds(rows, k, p), LiveIds(Removed(rows, ids), k, p);
    var gone := if k == kind && p == project then ids else {};
    forall id ensures id in after <==> id in before && id !in gone {
      RemovedIsNotLive(rows, ids, k, p, id);
      OnlyTheirOwn(rows, kind, project, k, p, id);
    }
    assert before == after + gone && after !! gone;
  }

  // ---- the repository

  class Repositories {
    const config: Config
    var quotas: map<Project, Record>
    var rows: map<RowId, Row>

    constructor (config: Config, rows: map<RowId, Row>)
      requires forall k: Resource :: k in config.defaults
      ensures this.config == config && this.rows == rows && quotas == map[]
      ensures Valid()
    {
      this.config := config;
      this.rows := rows;
      quotas := map[];
    }

    /** The limit in force. */
    function Limit(kind: Resource, project: Project): int
      requires kind in config.defaults
      reads this
    {
      if project in quotas && kind in quotas[project].limits then quotas[project].limits[kind] else config.defaults[kind]
    }

    function InUse(kind: Resource, project: Project): Option<int>
      reads this
    {
      if project in quotas && kind in quotas[project].inUse then Some(quotas[project].inUse[kind]) else None
    }

    /** Each counter is unset or equals the number of live rows. */
    ghost predicate Valid()
      reads this
    {
      && (forall k: Resource :: k in config.defaults)
      && forall k: Resource, p: Project :: InUse(k, p).Some? ==> InUse(k, p).value == Live(rows, k, p)
    }

    predicate Fits(total: int, kind: Resource, project: Project)
      requires kind in config.defaults
      reads this
    {
      total <= Limit(kind, project) || Limit(kind, project) == QUOTA_UNLIMITED
    }

    method EnsureProjectExists(project: Project)
      modifies this`quotas
      ensures project in quotas
      ensures forall k: Resource, p: Project :: InUse(k, p) == old(InUse(k, p))
      ensures forall k: Resource, p: Project :: k in config.defaults ==> Limit(k, p) == old(Limit(k, p))
      ensures forall p :: p in old(quotas) ==> p in quotas && quotas[p] == old(quotas)[p]
    {
      if project !in quotas {
        quotas := quotas[project := Record(map[], map[])];
      }
    }

    /** Checks the quota and, unless it is met already, takes the new total down.
        A counter that is NULL or zero is replaced by a recount. */
    method CheckQuotaMet(kind: Resource, project: Project, count: nat) returns (r: Answer)
      requires kind in config.defaults
      modifies this`quotas
      ensures r.MissingProject? <==> !config.noauth && project == ""
      ensures config.noauth ==> r.Available? && quotas == old(quotas)
      ensures !config.noauth && project != "" ==>
                var base := if old(InUse(kind, project)) in {None, Some(0)} then Live(rows, kind, project)
                            else old(InUse(kind, project)).value;
                (r.Available? <==> old(Fits(base + count, kind, project))) &&
                (r.Available? ==> InUse(kind, project) == Some(base + count))
      ensures !r.Available? ==> InUse(kind, project) == old(InUse(kind, project))
      ensures forall k: Resource, p: Project :: (k, p) != (kind, project) ==> InUse(k, p) == old(InUse(k, p))
      ensures forall k: Resource, p: Project :: k in config.defaults ==> Limit(k, p) == old(Limit(k, p))
    {
      if config.noauth {
        return Available;
      }
      if project == "" {
        return MissingProject;
      }
      EnsureProjectExists(project);
      var record := quotas[project];
      var quota := if kind in record.limits then record.limits[kind] else config.defaults[kind];
      var total: int;
      if kind !in record.inUse || record.inUse[kind] == 0 {
        total := Live(rows, kind, project) + count;
      } else {
        total := record.inUse[kind] + count;
      }
      if total <= quota || quota == QUOTA_UNLIMITED {
        quotas := quotas[project := record.(inUse := record.inUse[kind := total])];
        return Available;
      }
      r := Met;
    }

    /** Lowers the counter if there is one above zero. */
    method DecrementQuota(kind: Resource, project: Project, quantity: nat)
      modifies this`quotas
      ensures InUse(kind, project) ==
                if old(InUse(kind, project)).Some? && old(InUse(kind, project)).value > 0
                then Some(old(InUse(kind, project)).value - quantity) else old(InUse(kind, project))
      ensures forall k: Resource, p: Project :: (k, p) != (kind, project) ==> InUse(k, p) == old(InUse(k, p))
      ensures forall k: Resource, p: Project :: k in config.defaults ==> Limit(k, p) == old(Limit(k, p))
    {
      if project !in quotas {
        return;
      }
      var record := quotas[project];
      if kind in record.inUse && record.inUse[kind] > 0 {
        quotas := quotas[project := record.(inUse := record.inUse[kind := record.inUse[kind] - quantity])];
      }
    }

    // ---- transactions

    /** A creation: the check commits together with the new rows.  It is granted
        exactly if the live rows and the new ones fit the limit, whatever the
        counter happens to hold, and a refusal changes no counter and no row. */
    method Create(kind: Resource, project: Project, ids: set<RowId>) returns (r: Answer)
      requires Valid() && !config.noauth && ids !! rows.Keys
      modifies this
      ensures Valid()
      ensures r.MissingProject? <==> project == ""
      ensures project != "" ==> (r.Available? <==> old(Fits(Live(rows, kind, project) + |ids|, kind, project)))
      ensures r.Available? && Limit(kind, project) != -1 ==> Live(rows, kind, project) <= Limit(kind, project)
      ensures r.Met? ==> Limit(kind, project) != -1 && Live(rows, kind, project) + |ids| > Limit(kind, project)
      ensures Limit(kind, project) == old(Limit(kind, project))
      ensures r.Available? ==> rows == Inserted(old(rows), ids, kind, project)
      ensures !r.Available? ==> rows == old(rows) && forall k: Resource, p: Project :: InUse(k, p) == old(InUse(k, p))
    {
      hide Live, LiveIds, Inserted;
      r := CheckQuotaMet(kind, project, |ids|);
      if r.Available? {
        forall k: Resource, p: Project
          ensures Live(Inserted(rows, ids, kind, project), k, p)
               == Live(rows, k, p) + if k == kind && p == project then |ids| else 0
        {
          LiveAfterInsert(rows, ids, kind, project, k, p);
        }
        rows := Inserted(rows, ids, kind, project);
      }
    }

    /** A removal: live rows of one kind and project are marked DELETED together with the decrement. */
    method Delete(kind: Resource, project: Project, ids: set<RowId>)
      requires Valid() && ids <= LiveIds(rows, kind, project)
      modifies this
      ensures Valid()
      ensures rows == Removed(old(rows), ids)
    {
      DecrementQuota(kind, project, |ids|);
      forall k: Resource, p: Project
        ensures Live(Removed(rows, ids), k, p) == Live(rows, k, p) - if k == kind && p == project then |ids| else 0
      {
        LiveAfterRemove(rows, ids, kind, project, k, p);
      }
      rows := Removed(rows, ids);
    }

    /** An administrator sets a limit, or resets it to the default. */
    method SetLimit(kind: Resource, project: Project, limit: Option<int>)
      requires Valid()
      modifies this`quotas
      ensures Valid()
      ensures kind in config.defaults ==> Limit(kind, project) == if limit.Some? then limit.value else config.defaults[kind]
      ensures forall k: Resource, p: Project :: InUse(k, p) == old(InUse(k, p))
    {
      EnsureProjectExists(project);
      var record := quotas[project];
      quotas := quotas[project := record.(limits := if limit.Some? then record.limits[kind := limit.value] else record.limits - {kind})];
    }
  }
}
