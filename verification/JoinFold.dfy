/** AmphoraRepository.get_lb_for_health_update reads one flat join of five tables
    and folds its rows back into a nested dictionary.
 */
module JoinFold {
  import opened Wrappers

  type Id = string

  datatype LbRow = LbRow(id: Id, enabled: int, provStatus: string, opStatus: string)

  datatype ListenerInfo = ListenerInfo(opStatus: string, protocol: string, enabled: bool)

  datatype MemberRow = MemberRow(pool: Id, opStatus: string)

  /** The load balancer of the amphora with what hangs on it. */
  datatype Database = Database(
    lb: LbRow,
    listeners: map<Id, ListenerInfo>,
    pools: map<Id, string>,
    members: map<Id, MemberRow>)

  /** One row of the join.  A column of a table that has no matching row is NULL. */
  datatype Row = Row(
    lb: LbRow,
    listId: Option<Id>, listener: ListenerInfo,
    poolId: Option<Id>, poolStatus: string,
    memberId: Option<Id>, memberStatus: string)

  datatype PoolDict = PoolDict(opStatus: string, members: map<Id, string>)

  /** listeners and pools are missing keys where there are none. */
  datatype LbDict =
    | Empty
    | LbDict(id: Id, enabled: bool, provStatus: string, opStatus: string,
             listeners: Option<map<Id, ListenerInfo>>, pools: Option<map<Id, PoolDict>>)

  // ---- what LEFT JOIN yields

  ghost predicate ValidDatabase(db: Database) {
    && (forall l :: l in db.listeners ==> l != "")
    && (forall p :: p in db.pools ==> p != "")
    && (forall m :: m in db.members ==> m != "" && db.members[m].pool in db.pools)
  }

  ghost predicate HasMembers(db: Database, p: Id) {
    exists m :: m in db.members && db.members[m].pool == p
  }

  ghost predicate ListenerPart(db: Database, row: Row) {
    match row.listId
    case None => db.listeners == map[]
    case Some(l) => l in db.listeners && row.listener == db.listeners[l]
  }

  ghost predicate PoolPart(db: Database, row: Row) {
    match row.poolId
    case None => db.pools == map[] && row.memberId == None
    case Some(p) =>
      && p in db.pools && row.poolStatus == db.pools[p]
      && match row.memberId
         case None => !HasMembers(db, p)
         case Some(m) => m in db.members && db.members[m] == MemberRow(p, row.memberStatus)
  }

  /** What matters about the rows of the join, in any order: each combines a
      listener with a pool and one of its members, and none of them is left out. */
  ghost predicate IsJoin(db: Database, rows: seq<Row>) {
    && rows != []
    && (forall i :: 0 <= i < |rows| ==> rows[i].lb == db.lb && ListenerPart(db, rows[i]) && PoolPart(db, rows[i]))
    && (forall l :: l in db.listeners ==> exists i :: 0 <= i < |rows| && rows[i].listId == Some(l))
    && (forall p :: p in db.pools ==> exists i :: 0 <= i < |rows| && rows[i].poolId == Some(p))
    && (forall m :: m in db.members ==> exists i :: 0 <= i < |rows| && rows[i].memberId == Some(m))
  }

  // ---- the query itself

  /** The rows of a LEFT JOIN: every pair that matches, and each left row without a match once, with NULL. */
  ghost function LeftJoin<A, B>(left: set<A>, right: set<B>, on: (A, B) -> bool): set<(A, Option<B>)> {
    (set a, b | a in left && b in right && on(a, b) :: (a, Some(b)))
    + (set a | a in left && Unmatched(a, right, on) :: (a, None))
  }

  ghost predicate Unmatched<A, B>(a: A, right: set<B>, on: (A, B) -> bool) {
    forall b :: b in right ==> !on(a, b)
  }

  type WithListener = (LbRow, Option<(Id, ListenerInfo)>)

  type WithPool = (WithListener, Option<(Id, string)>)

  type WithMember = (WithPool, Option<(Id, MemberRow)>)

  lemma InLeftJoin<A, B>(left: set<A>, right: set<B>, on: (A, B) -> bool, a: A, b: Option<B>)
    ensures (a, b) in LeftJoin(left, right, on) <==>
            a in left && if b.Some? then b.value in right && on(a, b.value) else Unmatched(a, right, on)
  {
  }

  predicate OfPool(j: WithPool, m: (Id, MemberRow)) {
    j.1.Some? && m.1.pool == j.1.value.0
  }

  ghost function Listeners(db: Database): set<WithListener> {
    LeftJoin({db.lb}, db.listeners.Items, (lb: LbRow, l: (Id, ListenerInfo)) => true)
  }

  ghost function Pools(db: Database): set<WithPool> {
    LeftJoin(Listeners(db), db.pools.Items, (j: WithListener, p: (Id, string)) => true)
  }

  /** The load balancer with its listeners, its pools, and the members of each pool. */
  ghost function Query(db: Database): set<WithMember> {
    LeftJoin(Pools(db), db.members.Items, (j: WithPool, m: (Id, MemberRow)) => OfPool(j, m))
  }

  function IdOf<T>(row: Option<(Id, T)>): Option<Id> {
    if row.Some? then Some(row.value.0) else None
  }

  /** The selected columns of a joined row; the other columns of a missing row are NULL, whatever stands for that. */
  ghost predicate Selects(row: Row, j: WithMember) {
    && row.lb == j.0.0.0
    && row.listId == IdOf(j.0.0.1) && (j.0.0.1.Some? ==> row.listener == j.0.0.1.value.1)
    && row.poolId == IdOf(j.0.1) && (j.0.1.Some? ==> row.poolStatus == j.0.1.value.1)
    && row.memberId == IdOf(j.1) && (j.1.Some? ==> row.memberStatus == j.1.value.1.opStatus)
  }

  /** The rows answer the query, in any order. */
  ghost predicate AnswersQuery(db: Database, rows: seq<Row>) {
    && (forall i :: 0 <= i < |rows| ==> IsAnswer(db, rows[i]))
    && (forall j :: j in Query(db) ==> IsSelected(rows, j))
  }

  ghost predicate IsAnswer(db: Database, row: Row) {
    exists j :: j in Query(db) && Selects(row, j)
  }

  ghost predicate IsSelected(rows: seq<Row>, j: WithMember) {
    exists i :: 0 <= i < |rows| && Selects(rows[i], j)
  }

  ghost predicate AnyListener(db: Database, l: Option<(Id, ListenerInfo)>) {
    if l.Some? then l.value in db.listeners.Items else db.listeners.Items == {}
  }

  ghost predicate AnyPool(db: Database, p: Option<(Id, string)>) {
    if p.Some? then p.value in db.pools.Items else db.pools.Items == {}
  }

  ghost predicate AnyMember(db: Database, j: WithPool, m: Option<(Id, MemberRow)>) {
    if m.Some? then m.value in db.members.Items && OfPool(j, m.value)
    else forall x :: x in db.members.Items ==> !OfPool(j, x)
  }

  lemma JoinedRow(db: Database, j: WithMember)
    ensures j in Query(db) <==>
            j.0.0.0 == db.lb && AnyListener(db, j.0.0.1) && AnyPool(db, j.0.1) && AnyMember(db, j.0, j.1)
  {
    hide LeftJoin;
    var onListener := (lb: LbRow, l: (Id, ListenerInfo)) => true;
    var onPool := (x: WithListener, p: (Id, string)) => true;
    var onMember := (x: WithPool, m: (Id, MemberRow)) => OfPool(x, m);
    var withPool, withListener := j.0, j.0.0;
    assert j == (withPool, j.1) && withPool == (withListener, withPool.1)
           && withListener == (withListener.0, withListener.1);
    InLeftJoin({db.lb}, db.listeners.Items, onListener, withListener.0, withListener.1);
    InLeftJoin(Listeners(db), db.pools.Items, onPool, withListener, withPool.1);
    InLeftJoin(Pools(db), db.members.Items, onMember, withPool, j.1);
    Everything(withListener.0, db.listeners.Items, onListener);
    Everything(withListener, db.pools.Items, onPool);
  }

  lemma Everything<A, B>(a: A, right: set<B>, on: (A, B) -> bool)
    requires forall b :: on(a, b)
    ensures Unmatched(a, right, on) <==> right == {}
  {
  }

  /** Some listener, or none if there is none at all. */
  lemma ListenerFor(db: Database) returns (l: Option<(Id, ListenerInfo)>)
    ensures AnyListener(db, l)
  {
    if db.listeners.Items == {} {
      l := None;
    } else {
      var x :| x in db.listeners.Items;
      l := Some(x);
    }
  }

  lemma PoolFor(db: Database) returns (p: Option<(Id, string)>)
    ensures AnyPool(db, p)
  {
    if db.pools.Items == {} {
      p := None;
    } else {
      var x :| x in db.pools.Items;
      p := Some(x);
    }
  }

  lemma MemberFor(db: Database, j: WithPool) returns (m: Option<(Id, MemberRow)>)
    ensures AnyMember(db, j, m)
  {
    if x :| x in db.members.Items && OfPool(j, x) {
      m := Some(x);
    } else {
      m := None;
    }
  }

  lemma AnswerFits(db: Database, row: Row)
    requires IsAnswer(db, row)
    ensures row.lb == db.lb && ListenerPart(db, row) && PoolPart(db, row)
  {
    hide Query;
    var j :| j in Query(db) && Selects(row, j);
    JoinedRow(db, j);
    if j.0.0.1.None? {
      NoItems(db.listeners);
    }
    if j.0.1.None? {
      NoItems(db.pools);
    } else if j.1.None? {
      forall m | m in db.members
        ensures db.members[m].pool != j.0.1.value.0
      {
        assert (m, db.members[m]) in db.members.Items && !OfPool(j.0, (m, db.members[m]));
      }
    }
  }

  lemma NoItems<K, V>(m: map<K, V>)
    ensures m.Items == {} ==> m == map[]
  {
    if m != map[] {
      var k :| k in m.Keys;
      assert (k, m[k]) in m.Items;
    }
  }

  lemma ListenerIsItem(db: Database, l: Id)
    requires l in db.listeners
    ensures AnyListener(db, Some((l, db.listeners[l])))
  {
  }

  lemma PoolIsItem(db: Database, p: Id)
    requires p in db.pools
    ensures AnyPool(db, Some((p, db.pools[p])))
  {
  }

  /** Every combination that the join allows is in the answer. */
  lemma Combined(db: Database, rows: seq<Row>, l: Option<(Id, ListenerInfo)>, p: Option<(Id, string)>, m: Option<(Id, MemberRow)>)
    returns (i: nat)
    requires AnswersQuery(db, rows)
    requires AnyListener(db, l) && AnyPool(db, p) && AnyMember(db, ((db.lb, l), p), m)
    ensures i < |rows| && rows[i].listId == IdOf(l) && rows[i].poolId == IdOf(p) && rows[i].memberId == IdOf(m)
  {
    hide Query, AnyListener, AnyPool, AnyMember, IsAnswer;
    var j: WithMember := (((db.lb, l), p), m);
    JoinedRow(db, j);
    i :| 0 <= i < |rows| && Selects(rows[i], j);
  }

  /** Whatever answers the query has the properties that the loop relies on. */
  lemma QueryIsJoin(db: Database, rows: seq<Row>)
    requires ValidDatabase(db) && AnswersQuery(db, rows)
    ensures IsJoin(db, rows)
  {
    hide Query, Selects, ListenerPart, PoolPart, IsAnswer, IsSelected, AnyListener, AnyPool, AnyMember;
    forall i | 0 <= i < |rows|
      ensures rows[i].lb == db.lb && ListenerPart(db, rows[i]) && PoolPart(db, rows[i])
    {
      AnswerFits(db, rows[i]);
    }
    hide AnswersQuery;
    var l0 := ListenerFor(db);
    var p0 := PoolFor(db);
    var m0 := MemberFor(db, ((db.lb, l0), p0));
    var first := Combined(db, rows, l0, p0, m0);
    forall l | l in db.listeners
      ensures exists i :: 0 <= i < |rows| && rows[i].listId == Some(l)
    {
      var x := Some((l, db.listeners[l]));
      ListenerIsItem(db, l);
      var m := MemberFor(db, ((db.lb, x), p0));
      var i := Combined(db, rows, x, p0, m);
    }
    forall p | p in db.pools
      ensures exists i :: 0 <= i < |rows| && rows[i].poolId == Some(p)
    {
      var x := Some((p, db.pools[p]));
      PoolIsItem(db, p);
      var m := MemberFor(db, ((db.lb, l0), x));
      var i := Combined(db, rows, l0, x, m);
    }
    forall m | m in db.members
      ensures exists i :: 0 <= i < |rows| && rows[i].memberId == Some(m)
    {
      var i := MemberIsJoined(db, rows, l0, m);
    }
  }

  lemma MemberIsJoined(db: Database, rows: seq<Row>, l: Option<(Id, ListenerInfo)>, m: Id) returns (i: nat)
    requires ValidDatabase(db) && AnswersQuery(db, rows) && AnyListener(db, l) && m in db.members
    ensures i < |rows| && rows[i].memberId == Some(m)
  {
    hide Query, AnswersQuery;
    var p := db.members[m].pool;
    var x := Some((p, db.pools[p]));
    PoolIsItem(db, p);
    assert (m, db.members[m]) in db.members.Items && OfPool(((db.lb, l), x), (m, db.members[m]));
    i := Combined(db, rows, l, x, Some((m, db.members[m])));
  }

  // ---- the nested structure

  function FullPools(db: Database): map<Id, PoolDict> {
    map p | p in db.pools ::
      PoolDict(db.pools[p], map m | m in db.members && db.members[m].pool == p :: db.members[m].opStatus)
  }

  /** The nested structure that the rows stand for. */
  function Nested(db: Database): LbDict {
    LbDict(db.lb.id, db.lb.enabled == 1, db.lb.provStatus, db.lb.opStatus,
           if db.listeners == map[] then None else Some(db.listeners),
           if db.pools == map[] then None else Some(FullPools(db)))
  }

  predicate Truthy(id: Option<Id>) {
    id.Some? && id.value != ""
  }

  // ---- the loop

  function AddListener(listeners: map<Id, ListenerInfo>, row: Row): map<Id, ListenerInfo> {
    if Truthy(row.listId) && row.listId.value !in listeners then listeners[row.listId.value := row.listener] else listeners
  }

  function AddMember(members: map<Id, string>, row: Row): map<Id, string> {
    if Truthy(row.memberId) then members[row.memberId.value := row.memberStatus] else members
  }

  function AddPool(pools: map<Id, PoolDict>, row: Row): map<Id, PoolDict> {
    if !Truthy(row.poolId) then pools
    else
      var p := row.poolId.value;
      if p in pools && Truthy(row.memberId) then pools[p := pools[p].(members := AddMember(pools[p].members, row))]
      else pools[p := PoolDict(row.poolStatus, AddMember(map[], row))]
  }

  /** What has been met in the rows read so far. */
  datatype Seen = Seen(listeners: set<Id>, pools: set<Id>, members: set<Id>)

  function IdSet(id: Option<Id>): set<Id> {
    if id.Some? then {id.value} else {}
  }

  ghost function SeenIn(rows: seq<Row>): Seen {
    if rows == [] then Seen({}, {}, {})
    else
      var s, row := SeenIn(rows[..|rows| - 1]), rows[|rows| - 1];
      Seen(s.listeners + IdSet(row.listId), s.pools + IdSet(row.poolId), s.members + IdSet(row.memberId))
  }

  lemma {:induction false} SeenAt(rows: seq<Row>, i: nat)
    requires i < |rows|
    ensures rows[i].listId.Some? ==> rows[i].listId.value in SeenIn(rows).listeners
    ensures rows[i].poolId.Some? ==> rows[i].poolId.value in SeenIn(rows).pools
    ensures rows[i].memberId.Some? ==> rows[i].memberId.value in SeenIn(rows).members
  {
    if i < |rows| - 1 {
      SeenAt(rows[..|rows| - 1], i);
    }
  }

  ghost function PartListeners(db: Database, s: Seen): map<Id, ListenerInfo> {
    map l | l in db.listeners && l in s.listeners :: db.listeners[l]
  }

  ghost function PartMembers(db: Database, s: Seen, p: Id): map<Id, string> {
    map m | m in db.members && m in s.members && db.members[m].pool == p :: db.members[m].opStatus
  }

  ghost function PartPools(db: Database, s: Seen): map<Id, PoolDict> {
    map p | p in db.pools && p in s.pools :: PoolDict(db.pools[p], PartMembers(db, s, p))
  }

  /** A member is seen only together with its pool, and no pool without members shows one. */
  ghost predicate Coherent(db: Database, s: Seen) {
    forall m :: m in s.members ==> m in db.members && db.members[m].pool in s.pools
  }

  ghost function Met(s: Seen, row: Row): Seen {
    Seen(s.listeners + IdSet(row.listId), s.pools + IdSet(row.poolId), s.members + IdSet(row.memberId))
  }

  lemma ListenerStep(db: Database, s: Seen, row: Row)
    requires ValidDatabase(db) && ListenerPart(db, row)
    ensures AddListener(PartListeners(db, s), row) == PartListeners(db, Met(s, row))
  {
    assert forall l :: l in PartListeners(db, Met(s, row)) <==> l in PartListeners(db, s) || row.listId == Some(l);
  }

  lemma MembersStep(db: Database, s: Seen, row: Row, p: Id)
    requires ValidDatabase(db) && PoolPart(db, row) && Coherent(db, s)
    ensures row.poolId != Some(p) ==> PartMembers(db, Met(s, row), p) == PartMembers(db, s, p)
    ensures row.poolId == Some(p) ==> PartMembers(db, Met(s, row), p) == AddMember(PartMembers(db, s, p), row)
    ensures row.poolId == Some(p) && row.memberId == None ==> PartMembers(db, s, p) == map[]
    ensures p !in s.pools ==> PartMembers(db, s, p) == map[]
  {
  }

  /** A pool is overwritten only while it has no members: either it is new, or
      the join gives it none at all. */
  lemma PoolStep(db: Database, s: Seen, row: Row)
    requires ValidDatabase(db) && PoolPart(db, row) && Coherent(db, s)
    ensures Coherent(db, Met(s, row))
    ensures AddPool(PartPools(db, s), row) == PartPools(db, Met(s, row))
  {
    hide PartMembers;
    var a, b := AddPool(PartPools(db, s), row), PartPools(db, Met(s, row));
    forall p
      ensures p in a <==> p in b
      ensures p in a && p in b ==> a[p] == b[p]
    {
      MembersStep(db, s, row, p);
    }
  }

  /** After the whole join everything has been met. */
  lemma AllSeen(db: Database, rows: seq<Row>)
    requires ValidDatabase(db) && IsJoin(db, rows)
    ensures db.listeners.Keys <= SeenIn(rows).listeners
    ensures db.pools.Keys <= SeenIn(rows).pools
    ensures db.members.Keys <= SeenIn(rows).members
  {
    hide SeenIn, ListenerPart, PoolPart;
    forall l | l in db.listeners
      ensures l in SeenIn(rows).listeners
    {
      var i :| 0 <= i < |rows| && rows[i].listId == Some(l);
      SeenAt(rows, i);
    }
    forall p | p in db.pools
      ensures p in SeenIn(rows).pools
    {
      var i :| 0 <= i < |rows| && rows[i].poolId == Some(p);
      SeenAt(rows, i);
    }
    forall m | m in db.members
      ensures m in SeenIn(rows).members
    {
      var i :| 0 <= i < |rows| && rows[i].memberId == Some(m);
      SeenAt(rows, i);
    }
  }

  lemma PartsAreFull(db: Database, s: Seen)
    requires db.listeners.Keys <= s.listeners && db.pools.Keys <= s.pools && db.members.Keys <= s.members
    ensures PartListeners(db, s) == db.listeners
    ensures PartPools(db, s) == FullPools(db)
  {
    forall p | p in db.pools
      ensures PartMembers(db, s, p) == map m | m in db.members && db.members[m].pool == p :: db.members[m].opStatus
    {
    }
  }

  /** The loop over the rows rebuilds the nested structure from the join, whatever
      the order of the rows and however often a row occurs; no row means no load
      balancer. */
  method GetLbForHealthUpdate(rows: seq<Row>, ghost db: Database) returns (r: LbDict)
    requires rows != [] ==> ValidDatabase(db) && AnswersQuery(db, rows)
    ensures r == if rows == [] then Empty else Nested(db)
    ensures rows != [] ==>
              && r.LbDict? && r.id == db.lb.id && r.provStatus == db.lb.provStatus && r.opStatus == db.lb.opStatus
              && (r.enabled <==> db.lb.enabled == 1)
              && r.listeners == (if db.listeners == map[] then None else Some(db.listeners))
              && (r.pools.None? <==> db.pools == map[])
    ensures rows != [] && r.pools.Some? ==>
              && r.pools.value.Keys == db.pools.Keys
              && forall p :: p in db.pools ==>
                   && r.pools.value[p].opStatus == db.pools[p]
                   && (forall m :: m in r.pools.value[p].members <==> m in db.members && db.members[m].pool == p)
                   && forall m :: m in r.pools.value[p].members ==> r.pools.value[p].members[m] == db.members[m].opStatus
  {
    hide AddListener, AddPool, PartListeners, PartPools, IsJoin, AnswersQuery;
    var lb := Empty;
    var listeners: map<Id, ListenerInfo> := map[];
    var pools: map<Id, PoolDict> := map[];
    if rows != [] {
      QueryIsJoin(db, rows);
      NothingSeen(db);
    }
    var i := 0;
    while i < |rows|
      invariant 0 <= i <= |rows|
      invariant i == 0 ==> lb == Empty
      invariant i > 0 ==> lb == LbDict(db.lb.id, db.lb.enabled == 1, db.lb.provStatus, db.lb.opStatus, None, None)
      invariant rows != [] ==> Coherent(db, SeenIn(rows[..i]))
      invariant rows != [] ==> listeners == PartListeners(db, SeenIn(rows[..i])) && pools == PartPools(db, SeenIn(rows[..i]))
    {
      var row := rows[i];
      RowOfJoin(db, rows, i);
      if lb == Empty {
        lb := LbDict(row.lb.id, row.lb.enabled == 1, row.lb.provStatus, row.lb.opStatus, None, None);
      }
      ListenerStep(db, SeenIn(rows[..i]), row);
      PoolStep(db, SeenIn(rows[..i]), row);
      assert rows[..i + 1][..i] == rows[..i];
      listeners := AddListener(listeners, row);
      pools := AddPool(pools, row);
      i := i + 1;
    }
    assert rows[..i] == rows;
    if rows == [] {
      return lb;
    }
    AllSeen(db, rows);
    PartsAreFull(db, SeenIn(rows));
    if listeners != map[] {
      lb := lb.(listeners := Some(listeners));
    }
    if pools != map[] {
      lb := lb.(pools := Some(pools));
    }
    r := lb;
    assert pools == map[] <==> db.pools == map[];
  }

  lemma NothingSeen(db: Database)
    ensures PartListeners(db, SeenIn([])) == map[] && PartPools(db, SeenIn([])) == map[] && Coherent(db, SeenIn([]))
  {
  }

  lemma RowOfJoin(db: Database, rows: seq<Row>, i: nat)
    requires IsJoin(db, rows) && i < |rows|
    ensures rows[i].lb == db.lb && ListenerPart(db, rows[i]) && PoolPart(db, rows[i])
  {
  }
}
