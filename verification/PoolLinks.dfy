/** The lists listener.pools and pool.listeners of the data model.  They are
    kept up to date in place by every update and delete.
 */
module PoolLinks {
  import opened PoolObjects
  import opened PolicySteps
  import opened Sequences
  import opened Wrappers

  // ---- taking links away

  /** The guard of _conditionally_remove_pool_links. */
  ghost predicate Removes(q: L7Policy, pool: Pool?)
    reads q.listener, q.listener.l7policies
  {
    && q.listener.defaultPool != null && pool != null && pool != q.listener.defaultPool
    && pool in q.listener.pools && !UsedByOthers(q.listener, pool, q)
  }

  method ConditionallyRemovePoolLinks(self: L7Policy, pool: Pool?, ghost lb: LoadBalancer, ghost Q: set<L7Policy>)
    requires Linked(lb, Q) && self.listener in lb.listeners && (pool != null ==> pool in lb.pools)
    modifies self.listener`pools, (if pool == null then {} else {pool})`listeners
    ensures Linked(lb, Q)
    ensures !old(Removes(self, pool)) ==> self.listener.pools == old(self.listener.pools)
    ensures old(Removes(self, pool)) ==> self.listener.pools == Remove<Pool>(old(self.listener.pools), pool)
  {
    var l := self.listener;
    if l.defaultPool != null && pool != null && pool.id != l.defaultPool.id && pool in l.pools {
      var inUse := PoolsOfOtherPolicies(l, self);
      assert pool in inUse <==> UsedByOthers(l, pool, self);
      if pool !in inUse {
        Unlink(l, pool, lb, Q);
      }
    }
  }

  /** Both ends of a link go together. */
  method Unlink(l: Listener, pool: Pool, ghost lb: LoadBalancer, ghost Q: set<L7Policy>)
    requires Linked(lb, Q) && l in lb.listeners && pool in lb.pools
    modifies l`pools, pool`listeners
    ensures Linked(lb, Q)
    ensures l.pools == Remove(old(l.pools), pool)
  {
    RemoveDropsOne(l.pools, pool);
    RemoveDropsOne(pool.listeners, l);
    l.pools := Remove(l.pools, pool);
    pool.listeners := Remove(pool.listeners, l);
  }

  method Link(l: Listener, pool: Pool, ghost lb: LoadBalancer, ghost Q: set<L7Policy>)
    requires Linked(lb, Q) && l in lb.listeners && pool in lb.pools
    modifies l`pools, pool`listeners
    ensures Linked(lb, Q)
    ensures l.pools == if pool in old(l.pools) then old(l.pools) else old(l.pools) + [pool]
  {
    if pool !in l.pools {
      AppendAddsOne(l.pools, pool);
      l.pools := l.pools + [pool];
    }
    if l !in pool.listeners {
      AppendAddsOne(pool.listeners, l);
      pool.listeners := pool.listeners + [l];
    }
  }

  /** The list comprehension over the policies of the listener. */
  method PoolsOfOtherPolicies(l: Listener, self: L7Policy) returns (inUse: seq<Pool>)
    ensures forall p :: p in inUse <==> UsedByOthers(l, p, self)
  {
    inUse := [];
    for i := 0 to |l.l7policies|
      invariant forall p :: p in inUse <==> exists j :: 0 <= j < i && l.l7policies[j] != self && UsesByPolicy(l.l7policies[j], p)
    {
      var q := l.l7policies[i];
      if q.redirectPool != null && q.l7rules != [] && q.enabled && q != self {
        inUse := inUse + [q.redirectPool];
      }
    }
  }

  // ---- L7Policy.update, one key at a time

  /** All is well apart, perhaps, from the policy that is being updated. */
  ghost predicate OthersHold(lb: LoadBalancer, Q: set<L7Policy>, self: L7Policy)
    reads lb, lb.listeners, lb.pools, Q
  {
    && Linked(lb, Q)
    && self in Q && self.listener in lb.listeners && self in self.listener.l7policies
    && (forall l :: l in lb.listeners ==> DefaultConsistent(l) && (l.defaultPool != null ==> l.defaultPool in l.pools))
    && (forall l, q :: l in lb.listeners && q in l.l7policies && q != self ==>
          Consistent(q) && (Active(q) ==> q.redirectPool in l.pools))
  }

  /** The policy and its listener's pools as one value. */
  ghost function StateOf(self: L7Policy): PolicyState
    reads self, self.listener
  {
    PolicyState(self.action, self.redirectPool, self.redirectPoolId, self.redirectUrl, self.enabled,
                set p | p in self.listener.pools)
  }

  /** The pools that the listener's other policies use. */
  ghost function Others(self: L7Policy, lb: LoadBalancer): set<Pool>
    reads lb`pools, self.listener`l7policies
    reads (set q | q in self.listener.l7policies)`redirectPool, (set q | q in self.listener.l7policies)`l7rules, (set q | q in self.listener.l7policies)`enabled
  {
    set p | p in lb.pools && UsedByOthers(self.listener, p, self)
  }

  ghost predicate InContext(c: Context, self: L7Policy, lb: LoadBalancer)
    reads self, lb, self.listener, self.listener.l7policies
  {
    && c.rules == (self.l7rules != [])
    && c.default == self.listener.defaultPool
    && c.others == Others(self, lb)
    && (c.named != null ==> c.named in lb.pools)
  }

  /** The pool with the id, if there is one. */
  ghost function PoolWithId(lb: LoadBalancer, id: string): Pool?
    reads lb
  {
    if exists p :: p in lb.pools && p.id == id then
      var p :| p in lb.pools && p.id == id;
      p
    else null
  }

  ghost function ContextOf(self: L7Policy, lb: LoadBalancer, entries: seq<Entry>, target: Target): Context
    reads self, lb, self.listener, self.listener.l7policies
  {
    Context(self.l7rules != [], self.listener.defaultPool, Others(self, lb), EnabledKey(true) in entries,
            if target.ToPool? then PoolWithId(lb, target.id) else null)
  }

  /** The link to the policy's pool goes, unless something else needs it. */
  method Detach(self: L7Policy, lb: LoadBalancer, ghost Q: set<L7Policy>, ghost c: Context)
    requires OthersHold(lb, Q, self) && InContext(c, self, lb)
    modifies self.listener`pools, (set p | p in lb.pools)`listeners
    ensures OthersHold(lb, Q, self) && InContext(c, self, lb)
    ensures StateOf(self) == old(StateOf(self)).(listed := Detached(c, old(StateOf(self))))
    ensures self.listener.defaultPool == null ==> self.listener.pools == old(self.listener.pools)
  {
    hide NoRepeats, Consistent;
    var l := self.listener;
    ghost var before := l.pools;
    ghost var removes := Removes(self, self.redirectPool);
    assert NoRepeats(l.pools);
    ConditionallyRemovePoolLinks(self, self.redirectPool, lb, Q);
    if self.redirectPool != null {
      RemoveDropsOne<Pool>(before, self.redirectPool);
    }
  }

  /** The policy's own fields matter to nobody else. */
  method SetFields(self: L7Policy, action: Action, pool: Pool?, poolId: Option<string>, url: Option<string>, enabled: bool,
                   ghost lb: LoadBalancer, ghost Q: set<L7Policy>, ghost c: Context)
    requires OthersHold(lb, Q, self) && InContext(c, self, lb) && (pool != null ==> pool in lb.pools)
    modifies self`action, self`redirectPool, self`redirectPoolId, self`redirectUrl, self`enabled
    ensures OthersHold(lb, Q, self) && InContext(c, self, lb)
    ensures StateOf(self) == PolicyState(action, pool, poolId, url, enabled, old(StateOf(self)).listed)
  {
    AssignFields(self, action, pool, poolId, url, enabled, lb, Q);
    hide OthersHold, Linked;
    forall p | p in lb.pools
      ensures UsedByOthers(self.listener, p, self) == old(UsedByOthers(self.listener, p, self))
    {
      assert forall q :: q in self.listener.l7policies && q != self ==> UsesByPolicy(q, p) == old(UsesByPolicy(q, p));
    }
  }

  method AssignFields(self: L7Policy, action: Action, pool: Pool?, poolId: Option<string>, url: Option<string>, enabled: bool,
                      ghost lb: LoadBalancer, ghost Q: set<L7Policy>)
    requires OthersHold(lb, Q, self) && (pool != null ==> pool in lb.pools)
    modifies self`action, self`redirectPool, self`redirectPoolId, self`redirectUrl, self`enabled
    ensures OthersHold(lb, Q, self)
    ensures self.action == action && self.redirectPool == pool && self.redirectPoolId == poolId
    ensures self.redirectUrl == url && self.enabled == enabled
  {
    hide NoRepeats, Consistent, DefaultConsistent;
    self.action := action;
    self.redirectPool := pool;
    self.redirectPoolId := poolId;
    self.redirectUrl := url;
    self.enabled := enabled;
    forall l | l in lb.listeners
      ensures ValidListener(lb, Q, l)
    {
      assert old(ValidListener(lb, Q, l));
    }
    hide ValidListener;
  }

  /** The policy's pool is linked. */
  method Attach(self: L7Policy, pool: Pool, ghost lb: LoadBalancer, ghost Q: set<L7Policy>, ghost c: Context)
    requires OthersHold(lb, Q, self) && InContext(c, self, lb) && pool in lb.pools
    modifies self.listener`pools, pool`listeners
    ensures OthersHold(lb, Q, self) && InContext(c, self, lb)
    ensures StateOf(self) == old(StateOf(self)).(listed := old(StateOf(self)).listed + {pool})
  {
    hide NoRepeats, Consistent;
    Link(self.listener, pool, lb, Q);
  }

  /** The pool that redirect_pool_id names comes in, the old one goes. */
  method Retarget(self: L7Policy, pool: Pool, enabling: bool, lb: LoadBalancer, ghost Q: set<L7Policy>, ghost c: Context)
    requires OthersHold(lb, Q, self) && InContext(c, self, lb)
    requires pool in lb.pools && pool == c.named && enabling == c.enabling
    modifies self, self.listener`pools, (set p | p in lb.pools)`listeners
    ensures OthersHold(lb, Q, self) && InContext(c, self, lb) && self.l7rules == old(self.l7rules)
    ensures StateOf(self) == Retargeted(c, old(StateOf(self)))
  {
    hide OthersHold, Linked;
    Detach(self, lb, Q, c);
    SetFields(self, RedirectToPool, pool, Some(pool.id), None, self.enabled, lb, Q, c);
    if self.l7rules != [] && (self.enabled || enabling) {
      Attach(self, pool, lb, Q, c);
    }
  }

  /** The policy stops redirecting to a pool. */
  method Untarget(self: L7Policy, action: Action, url: Option<string>, lb: LoadBalancer, ghost Q: set<L7Policy>,
                  ghost c: Context)
    requires OthersHold(lb, Q, self) && InContext(c, self, lb)
    modifies self, self.listener`pools, (set p | p in lb.pools)`listeners
    ensures OthersHold(lb, Q, self) && InContext(c, self, lb) && self.l7rules == old(self.l7rules)
    ensures StateOf(self) == Untargeted(c, old(StateOf(self)), action, url)
  {
    hide OthersHold, Linked;
    Detach(self, lb, Q, c);
    SetFields(self, action, null, None, url, self.enabled, lb, Q, c);
  }

  lemma PolicyPoolIsKnown(self: L7Policy, lb: LoadBalancer, Q: set<L7Policy>)
    requires OthersHold(lb, Q, self)
    ensures self.redirectPool != null ==> self.redirectPool in lb.pools
  {
    assert ValidListener(lb, Q, self.listener);
  }

  method SetEnabled(self: L7Policy, value: bool, lb: LoadBalancer, ghost Q: set<L7Policy>, ghost c: Context)
    requires OthersHold(lb, Q, self) && InContext(c, self, lb)
    modifies self, self.listener`pools, (set p | p in lb.pools)`listeners
    ensures OthersHold(lb, Q, self) && InContext(c, self, lb) && self.l7rules == old(self.l7rules)
    ensures StateOf(self) == Switched(c, old(StateOf(self)), value)
  {
    PolicyPoolIsKnown(self, lb, Q);
    hide OthersHold, Linked;
    if value && self.action == RedirectToPool && self.redirectPool != null && self.l7rules != [] {
      Attach(self, self.redirectPool, lb, Q, c);
    } else if !value && self.action == RedirectToPool && self.redirectPool != null {
      Detach(self, lb, Q, c);
    }
    SetFields(self, self.action, self.redirectPool, self.redirectPoolId, self.redirectUrl, value, lb, Q, c);
  }

  /** Plain setattr of a key that no branch treats specially. */
  method SetAttr(self: L7Policy, e: Entry, ghost lb: LoadBalancer, ghost Q: set<L7Policy>, ghost c: Context)
    requires OthersHold(lb, Q, self) && InContext(c, self, lb)
    requires match e
             case RedirectPoolIdKey(v) => v == None
             case RedirectUrlKey(v) => v == None
             case ActionKey(a) => a != Reject
             case OtherKey(_) => true
             case _ => false
    modifies self`action, self`redirectPool, self`redirectPoolId, self`redirectUrl, self`enabled
    ensures OthersHold(lb, Q, self) && InContext(c, self, lb)
    ensures StateOf(self) == Step(c, old(StateOf(self)), e)
  {
    PolicyPoolIsKnown(self, lb, Q);
    hide OthersHold, Linked;
    var action := if e.ActionKey? then e.action else self.action;
    var poolId := if e.RedirectPoolIdKey? then e.poolId else self.redirectPoolId;
    var url := if e.RedirectUrlKey? then e.url else self.redirectUrl;
    SetFields(self, action, self.redirectPool, poolId, url, self.enabled, lb, Q, c);
  }

  /** remove and insert: the policy changes its place in the listener's list. */
  method Move(self: L7Policy, position: nat, ghost lb: LoadBalancer, ghost Q: set<L7Policy>, ghost c: Context)
    requires OthersHold(lb, Q, self) && InContext(c, self, lb) && position >= 1
    modifies self.listener`l7policies
    ensures OthersHold(lb, Q, self) && InContext(c, self, lb)
    ensures self.listener.l7policies == Insert(Remove(old(self.listener.l7policies), self), position - 1, self)
    ensures StateOf(self) == old(StateOf(self))
  {
    var l := self.listener;
    MovedWithin(l.l7policies, position - 1, self);
    hide NoRepeats;
    l.l7policies := Insert(Remove(l.l7policies, self), position - 1, self);
    assert forall p :: p in lb.pools ==> UsedByOthers(l, p, self) == old(UsedByOthers(l, p, self));
  }

  method FindPool(lb: LoadBalancer, id: string) returns (pool: Pool)
    requires exists p :: p in lb.pools && p.id == id
    ensures pool in lb.pools && pool.id == id
  {
    var i := 0;
    while lb.pools[i].id != id
      invariant 0 <= i < |lb.pools|
      invariant forall j :: 0 <= j < i ==> lb.pools[j].id != id
      decreases |lb.pools| - i
    {
      assert exists j :: i < j < |lb.pools| && lb.pools[j].id == id;
      i := i + 1;
    }
    pool := lb.pools[i];
  }

  /** The list of policies after one key. */
  function Placed(policies: seq<L7Policy>, self: L7Policy, e: Entry): seq<L7Policy>
    requires e.PositionKey? ==> e.position >= 1
  {
    if e.PositionKey? then Insert(Remove(policies, self), e.position - 1, self) else policies
  }

  /** One turn of the loop over the update dictionary. */
  method UpdateKey(self: L7Policy, e: Entry, entries: seq<Entry>, lb: LoadBalancer, ghost Q: set<L7Policy>, ghost c: Context)
    requires OthersHold(lb, Q, self) && InContext(c, self, lb) && Knows(c, e)
    requires c.enabling == (EnabledKey(true) in entries) && (e.PositionKey? ==> e.position >= 1)
    modifies self, self.listener`pools, self.listener`l7policies, (set p | p in lb.pools)`listeners
    ensures OthersHold(lb, Q, self) && InContext(c, self, lb)
    ensures StateOf(self) == Step(c, old(StateOf(self)), e)
    ensures self.l7rules == old(self.l7rules)
    ensures self.listener.l7policies == Placed(old(self.listener.l7policies), self, e)
  {
    NamedIsFound(self, e, lb, Q, c);
    hide OthersHold, Linked, NoRepeats;
    match e
    case RedirectPoolIdKey(v) =>
      if v.Some? {
        var pool := FindPool(lb, v.value);
        Retarget(self, pool, EnabledKey(true) in entries, lb, Q, c);
      } else {
        SetAttr(self, e, lb, Q, c);
      }
    case RedirectUrlKey(v) =>
      if v.Some? {
        Untarget(self, RedirectToUrl, v, lb, Q, c);
      } else {
        SetAttr(self, e, lb, Q, c);
      }
    case ActionKey(a) =>
      if a == Reject {
        Untarget(self, Reject, None, lb, Q, c);
      } else {
        SetAttr(self, e, lb, Q, c);
      }
    case PositionKey(n) =>
      Move(self, n, lb, Q, c);
    case EnabledKey(b) =>
      SetEnabled(self, b, lb, Q, c);
    case OtherKey(_) =>
      SetAttr(self, e, lb, Q, c);
  }

  lemma NamedIsFound(self: L7Policy, e: Entry, lb: LoadBalancer, Q: set<L7Policy>, c: Context)
    requires OthersHold(lb, Q, self) && InContext(c, self, lb) && Knows(c, e)
    ensures e.RedirectPoolIdKey? && e.poolId.Some? ==>
              c.named in lb.pools && c.named.id == e.poolId.value
              && forall p :: p in lb.pools && p.id == e.poolId.value ==> p == c.named
  {
  }

  // ---- whole updates

  lemma ValidHolds(self: L7Policy, lb: LoadBalancer, Q: set<L7Policy>)
    requires Valid(lb, Q) && self in Q && self.listener in lb.listeners && self in self.listener.l7policies
    ensures OthersHold(lb, Q, self)
  {
    hide Linked, NoRepeats;
  }

  /** Between two updates, validity is a matter of the policy alone. */
  lemma ValidIsFine(self: L7Policy, lb: LoadBalancer, Q: set<L7Policy>, c: Context)
    requires OthersHold(lb, Q, self) && InContext(c, self, lb)
    ensures Valid(lb, Q) <==> Fine(c, StateOf(self))
  {
    assert forall l, q :: l in lb.listeners && q in l.l7policies ==> q.listener == l by {
      assert forall l :: l in lb.listeners ==> ValidListener(lb, Q, l);
    }
    hide Linked, NoRepeats;
    assert Consistent(self) <==> Agrees(StateOf(self));
    assert Active(self) <==> IsActive(c, StateOf(self));
  }

  lemma FineIsHealthy(self: L7Policy, lb: LoadBalancer, Q: set<L7Policy>, c: Context)
    requires OthersHold(lb, Q, self) && InContext(c, self, lb) && Fine(c, StateOf(self))
    ensures Healthy(c, StateOf(self))
  {
    hide Linked, NoRepeats;
    forall p | p in c.others
      ensures p in self.listener.pools
    {
      var q :| q in self.listener.l7policies && q != self && UsesByPolicy(q, p);
    }
  }

  lemma ExactIsOnlyUsed(self: L7Policy, lb: LoadBalancer, Q: set<L7Policy>, c: Context)
    requires OthersHold(lb, Q, self) && InContext(c, self, lb)
    ensures Exact(self.listener) <==> OnlyUsed(c, StateOf(self))
  {
    assert ValidListener(lb, Q, self.listener);
    hide Linked, NoRepeats;
    var l, s := self.listener, StateOf(self);
    forall p | p in l.pools
      ensures Uses(l, p) <==> p == c.default || p in c.others || (IsActive(c, s) && p == s.pool)
    {
      if UsesByPolicy(self, p) {
        assert UsedByOthers(l, p, null);
      }
      if q :| q in l.l7policies && q != self && UsesByPolicy(q, p) {
        assert UsedByOthers(l, p, self) && UsedByOthers(l, p, null);
      }
    }
  }

  lemma ContextHolds(self: L7Policy, lb: LoadBalancer, Q: set<L7Policy>, entries: seq<Entry>, target: Target)
    requires Sanitised(entries, target)
    requires target.ToPool? ==> exists p :: p in lb.pools && p.id == target.id
    ensures var c := ContextOf(self, lb, entries, target);
            InContext(c, self, lb) && IsUpdate(c, entries, target)
  {
  }

  function PlacedBy(policies: seq<L7Policy>, self: L7Policy, entries: seq<Entry>): seq<L7Policy>
    requires forall i :: 0 <= i < |entries| ==> entries[i].PositionKey? ==> entries[i].position >= 1
  {
    if entries == [] then policies
    else
      var n := |entries| - 1;
      Placed(PlacedBy(policies, self, entries[..n]), self, entries[n])
  }

  /** The loop over the dictionary. */
  method UpdateKeys(self: L7Policy, entries: seq<Entry>, lb: LoadBalancer, ghost Q: set<L7Policy>, ghost target: Target,
                    ghost c: Context)
    requires OthersHold(lb, Q, self) && InContext(c, self, lb) && IsUpdate(c, entries, target)
    modifies self, self.listener`pools, self.listener`l7policies, (set p | p in lb.pools)`listeners
    ensures OthersHold(lb, Q, self) && InContext(c, self, lb)
    ensures StateOf(self) == After(c, old(StateOf(self)), entries)
    ensures self.l7rules == old(self.l7rules)
    ensures self.listener.l7policies == PlacedBy(old(self.listener.l7policies), self, entries)
  {
    hide OthersHold, InContext, Linked, NoRepeats, DistinctKeys, StateOf, Step, Placed;
    var i := 0;
    while i < |entries|
      invariant 0 <= i <= |entries|
      invariant OthersHold(lb, Q, self) && InContext(c, self, lb)
      invariant StateOf(self) == After(c, old(StateOf(self)), entries[..i])
      invariant self.l7rules == old(self.l7rules)
      invariant self.listener.l7policies == PlacedBy(old(self.listener.l7policies), self, entries[..i])
    {
      assert entries[..i + 1][..i] == entries[..i];
      assert Fits(entries[i], target) && Knows(c, entries[i]);
      UpdateKey(self, entries[i], entries, lb, Q, c);
      i := i + 1;
    }
    assert entries[..i] == entries;
  }

  /** L7Policy.update for any sanitised dictionary, its keys in any order.  The policy
      and its listener's pools end up as the steps say.  What held before still holds
      exactly if the update does not forget the policy's pool: links go both ways, no
      pool in use is missing, the policy agrees with its pool.  A list without unused
      pools gets one exactly if the update leaves one behind.
   */
  method UpdatePolicy(self: L7Policy, entries: seq<Entry>, lb: LoadBalancer, ghost Q: set<L7Policy>, ghost target: Target)
    requires Valid(lb, Q) && self in Q && self.listener in lb.listeners && self in self.listener.l7policies
    requires Sanitised(entries, target)
    requires target.ToPool? ==> exists p :: p in lb.pools && p.id == target.id
    modifies self, self.listener`pools, self.listener`l7policies, (set p | p in lb.pools)`listeners
    ensures KnowsAll(old(ContextOf(self, lb, entries, target)), entries)
    ensures StateOf(self) == After(old(ContextOf(self, lb, entries, target)), old(StateOf(self)), entries)
    ensures self.l7rules == old(self.l7rules)
    ensures self.enabled <==> EnabledKey(true) in entries || (old(self.enabled) && EnabledKey(false) !in entries)
    ensures target.ToPool? ==>
              && self.action == RedirectToPool && self.redirectPool != null && self.redirectPool in lb.pools
              && self.redirectPool.id == target.id && self.redirectPoolId == Some(target.id) && self.redirectUrl == None
    ensures target.ToUrl? ==>
              && self.action == RedirectToUrl && self.redirectPool == null && self.redirectPoolId == None
              && self.redirectUrl == Some(target.newUrl)
    ensures target.ToReject? ==>
              && self.action == Reject && self.redirectPool == null && self.redirectPoolId == None && self.redirectUrl == None
    ensures target.ToPrefix? ==>
              self.action == RedirectPrefix && self.redirectPool == old(self.redirectPool) && self.redirectPoolId == None
    ensures target.Keep? ==>
              && self.action == old(self.action) && self.redirectPool == old(self.redirectPool)
              && self.redirectPoolId == if RedirectPoolIdKey(None) in entries then None else old(self.redirectPoolId)
    ensures target.Keep? || target.ToPrefix? ==>
              self.redirectUrl == if RedirectUrlKey(None) in entries then None else old(self.redirectUrl)
    ensures forall n: nat :: PositionKey(n) in entries ==>
              n >= 1 && self.listener.l7policies == Insert(Remove(old(self.listener.l7policies), self), n - 1, self)
    ensures (forall n: nat :: PositionKey(n) !in entries) ==> self.listener.l7policies == old(self.listener.l7policies)
    ensures Linked(lb, Q)
    ensures Valid(lb, Q) <==> old(self.redirectPool) == null || !Forgets(entries, target)
    ensures old(Exact(self.listener)) ==>
              (Exact(self.listener) <==>
               !LeavesUnused(old(ContextOf(self, lb, entries, target)), old(StateOf(self)), entries, target))
  {
    ghost var c, s0 := ContextOf(self, lb, entries, target), StateOf(self);
    hide OthersHold, Linked, NoRepeats, Valid, Exact, Healthy, Fine, OnlyUsed, Forgets, LeavesUnused, InContext, IsUpdate,
         Sanitised, ContextOf, PlacedBy;
    ValidHolds(self, lb, Q);
    ContextHolds(self, lb, Q, entries, target);
    ValidIsFine(self, lb, Q, c);
    FineIsHealthy(self, lb, Q, c);
    ExactIsOnlyUsed(self, lb, Q, c);
    ghost var exact := Exact(self.listener);
    UpdateKeys(self, entries, lb, Q, target, c);
    ValidIsFine(self, lb, Q, c);
    ExactIsOnlyUsed(self, lb, Q, c);
    OthersAreLinked(self, lb, Q);
    NamedIsLive(c, self, lb, Q, entries, target);
    UpdateReachesTarget(c, s0, entries, target);
    PlacedOnce(old(self.listener.l7policies), self, entries, target);
    UpdateIsFineIff(c, s0, entries, target);
    if exact {
      OnlyUsedAfterIff(c, s0, entries, target);
    }
  }

  lemma NamedIsLive(c: Context, self: L7Policy, lb: LoadBalancer, Q: set<L7Policy>, entries: seq<Entry>, target: Target)
    requires OthersHold(lb, Q, self) && InContext(c, self, lb) && IsUpdate(c, entries, target)
    ensures target.ToPool? ==> c.named != null && c.named in lb.pools && c.named.id == target.id
  {
  }

  /** The one position key of a dictionary decides the place in the list. */
  lemma {:induction false} PlacedOnce(policies: seq<L7Policy>, self: L7Policy, entries: seq<Entry>, target: Target)
    requires Fitting(entries, target)
    ensures forall n: nat :: PositionKey(n) in entries ==>
              n >= 1 && PlacedBy(policies, self, entries) == Insert(Remove(policies, self), n - 1, self)
    ensures (forall n: nat :: PositionKey(n) !in entries) ==> PlacedBy(policies, self, entries) == policies
  {
    if entries != [] {
      var k := |entries| - 1;
      var e := entries[k];
      assert entries == entries[..k] + [e];
      assert Fitting(entries[..k], target);
      PlacedOnce(policies, self, entries[..k], target);
      if e.PositionKey? {
        forall x | x in entries[..k]
          ensures !x.PositionKey?
        {
          var i :| 0 <= i < k && entries[i] == x;
          assert !SameKey(entries[i], entries[k]);
        }
      }
    }
  }

  lemma OthersAreLinked(self: L7Policy, lb: LoadBalancer, Q: set<L7Policy>)
    requires OthersHold(lb, Q, self)
    ensures Linked(lb, Q)
  {
  }

  // ---- deleting policies and rules

  /** The policy's own use is the only reason to list its pool. */
  ghost predicate OnlyUser(self: L7Policy)
    reads self, self.listener, self.listener.l7policies
  {
    Active(self) && !UsedByOthers(self.listener, self.redirectPool, self)
  }

  /** Every listed pool is used without the policy. */
  ghost predicate UsedWithout(self: L7Policy)
    reads self, self.listener, self.listener.l7policies
  {
    forall p :: p in self.listener.pools ==> p == self.listener.defaultPool || UsedByOthers(self.listener, p, self)
  }

  method DropFromPool(self: L7Policy, pool: Pool, ghost lb: LoadBalancer, ghost Q: set<L7Policy>)
    requires OthersHold(lb, Q, self) && pool in lb.pools
    modifies pool`l7policies
    ensures OthersHold(lb, Q, self)
    ensures pool.l7policies == Remove(old(pool.l7policies), self)
  {
    hide NoRepeats;
    pool.l7policies := Remove(pool.l7policies, self);
  }

  method DropFromListener(self: L7Policy, ghost lb: LoadBalancer, ghost Q: set<L7Policy>)
    requires OthersHold(lb, Q, self)
    modifies self.listener`l7policies
    ensures Valid(lb, Q)
    ensures self.listener.l7policies == Remove(old(self.listener.l7policies), self)
    ensures self !in self.listener.l7policies
    ensures Exact(self.listener) <==> old(UsedWithout(self))
  {
    var l := self.listener;
    RemoveDropsOne(l.l7policies, self);
    hide NoRepeats;
    l.l7policies := Remove(l.l7policies, self);
    forall p | p in l.pools
      ensures Uses(l, p) <==> p == l.defaultPool || old(UsedByOthers(l, p, self))
    {
    }
  }

  lemma UsedWithoutIs(self: L7Policy, lb: LoadBalancer, Q: set<L7Policy>, c: Context)
    requires OthersHold(lb, Q, self) && InContext(c, self, lb)
    ensures UsedWithout(self) <==> forall p :: p in StateOf(self).listed ==> p == c.default || p in c.others
    ensures OnlyUser(self) <==> IsActive(c, StateOf(self)) && self.redirectPool !in c.others
  {
    assert ValidListener(lb, Q, self.listener);
    hide Linked, NoRepeats;
    forall p | p in self.listener.pools
      ensures p in StateOf(self).listed
      ensures UsedByOthers(self.listener, p, self) <==> p in c.others
    {
    }
    assert forall p :: p in StateOf(self).listed ==> p in self.listener.pools;
  }

  /** What a deleted policy leaves in a list of used pools. */
  lemma WhatStays(c: Context, s: PolicyState)
    requires Healthy(c, s) && OnlyUsed(c, s)
    ensures (forall p :: p in Detached(c, s) ==> p == c.default || p in c.others)
       <==> c.default != null || !(IsActive(c, s) && s.pool !in c.others)
  {
  }

  /** L7Policy.delete: the policy leaves the lists of its pool and of its
      listener.  An exact list stays exact unless the listener has no default
      pool and the policy was the last user of its pool. */
  method DeletePolicy(self: L7Policy, lb: LoadBalancer, ghost Q: set<L7Policy>)
    requires Valid(lb, Q) && self in Q && self.listener in lb.listeners && self in self.listener.l7policies
    modifies self.listener`pools, self.listener`l7policies, (set p | p in lb.pools)`listeners, (set p | p in lb.pools)`l7policies
    ensures Valid(lb, Q)
    ensures self.listener.l7policies == Remove(old(self.listener.l7policies), self) && self !in self.listener.l7policies
    ensures forall p :: p in lb.pools ==>
              p.l7policies == if p == self.redirectPool then Remove(old(p.l7policies), self) else old(p.l7policies)
    ensures old(Exact(self.listener)) ==>
              (Exact(self.listener) <==> self.listener.defaultPool != null || !old(OnlyUser(self)))
  {
    hide OthersHold, Linked, NoRepeats, Valid, Exact, OnlyUser, UsedWithout, UsedByOthers, Healthy, OnlyUsed, Detached, Fine, Others;
    ghost var c := Context(self.l7rules != [], self.listener.defaultPool, Others(self, lb), false, null);
    ghost var exact := Exact(self.listener);
    ValidHolds(self, lb, Q);
    PolicyPoolIsKnown(self, lb, Q);
    ValidIsFine(self, lb, Q, c);
    FineIsHealthy(self, lb, Q, c);
    ExactIsOnlyUsed(self, lb, Q, c);
    UsedWithoutIs(self, lb, Q, c);
    if exact {
      WhatStays(c, StateOf(self));
    }
    Detach(self, lb, Q, c);
    UsedWithoutIs(self, lb, Q, c);
    ghost var without := UsedWithout(self);
    if self.redirectPool != null {
      DropFromPool(self, self.redirectPool, lb, Q);
    }
    assert UsedWithout(self) == without;
    DropFromListener(self, lb, Q);
  }

  /** L7Rule.delete: with its last rule gone the policy is deleted as well. */
  method DeleteRule(self: L7Policy, rule: string, lb: LoadBalancer, ghost Q: set<L7Policy>)
    requires Valid(lb, Q) && self in Q && self.listener in lb.listeners && self in self.listener.l7policies
    requires rule in self.l7rules
    modifies self`l7rules, self.listener`pools, self.listener`l7policies
    modifies (set p | p in lb.pools)`listeners, (set p | p in lb.pools)`l7policies
    ensures Valid(lb, Q)
    ensures self.l7rules == Remove(old(self.l7rules), rule)
    ensures forall p :: p in lb.pools ==>
              p.l7policies == if p == self.redirectPool && |old(self.l7rules)| == 1 then Remove(old(p.l7policies), self)
                              else old(p.l7policies)
    ensures self.listener.l7policies == if |old(self.l7rules)| == 1 then Remove(old(self.listener.l7policies), self) else old(self.listener.l7policies)
    ensures old(Exact(self.listener)) ==>
              (Exact(self.listener) <==> |old(self.l7rules)| > 1 || self.listener.defaultPool != null || !old(OnlyUser(self)))
  {
    if |self.l7rules| == 1 {
      DeletePolicy(self, lb, Q);
      DropLastRule(self, rule, lb, Q);
    } else {
      DropRule(self, rule, lb, Q);
    }
  }

  lemma {:induction false} RemoveShrinks<T>(s: seq<T>, x: T)
    requires x in s
    ensures |Remove(s, x)| == |s| - 1
  {
    if s[0] != x {
      RemoveShrinks(s[1..], x);
    }
  }

  method DropRule(self: L7Policy, rule: string, ghost lb: LoadBalancer, ghost Q: set<L7Policy>)
    requires Valid(lb, Q) && rule in self.l7rules && |self.l7rules| > 1
    modifies self`l7rules
    ensures Valid(lb, Q)
    ensures self.l7rules == Remove(old(self.l7rules), rule)
    ensures old(Exact(self.listener)) ==> Exact(self.listener)
  {
    RemoveShrinks(self.l7rules, rule);
    hide NoRepeats;
    self.l7rules := Remove(self.l7rules, rule);
    assert forall q :: q in Q ==> Active(q) == old(Active(q)) && Consistent(q) == old(Consistent(q));
    forall l | l in lb.listeners
      ensures ValidListener(lb, Q, l)
    {
      assert old(ValidListener(lb, Q, l));
    }
    if old(Exact(self.listener)) {
      forall p | p in self.listener.pools
        ensures Uses(self.listener, p)
      {
        assert old(Uses(self.listener, p));
        if self.listener.defaultPool != p {
          var q :| q in self.listener.l7policies && old(UsesByPolicy(q, p));
          assert UsesByPolicy(q, p);
        }
      }
    }
  }

  method DropLastRule(self: L7Policy, rule: string, ghost lb: LoadBalancer, ghost Q: set<L7Policy>)
    requires Valid(lb, Q) && self.listener in lb.listeners && self !in self.listener.l7policies
    modifies self`l7rules
    ensures Valid(lb, Q)
    ensures self.l7rules == Remove(old(self.l7rules), rule)
    ensures Exact(self.listener) == old(Exact(self.listener))
  {
    hide NoRepeats;
    self.l7rules := Remove(self.l7rules, rule);
  }

  // ---- listeners

  /** The ids of the pools that active policies of the listener redirect to. */
  method ActivePoolIds(l: Listener) returns (ids: seq<string>)
    requires forall q :: q in l.l7policies ==> Consistent(q)
    ensures forall p: Pool :: UsedByOthers(l, p, null) ==> p.id in ids
    ensures forall id :: id in ids ==> exists q :: q in l.l7policies && Active(q) && q.redirectPool.id == id
  {
    ids := [];
    for i := 0 to |l.l7policies|
      invariant forall j :: 0 <= j < i && Active(l.l7policies[j]) ==> l.l7policies[j].redirectPool.id in ids
      invariant forall id :: id in ids ==> exists q :: q in l.l7policies && Active(q) && q.redirectPool.id == id
    {
      var q := l.l7policies[i];
      assert Consistent(q);
      if q.redirectPoolId.Some? && q.l7rules != [] && q.enabled {
        ids := ids + [q.redirectPoolId.value];
      }
    }
  }

  /** All is well apart, perhaps, from the listener's default pool. */
  ghost predicate PoliciesHold(lb: LoadBalancer, Q: set<L7Policy>, self: Listener)
    reads lb, lb.listeners, lb.pools, Q
  {
    && Linked(lb, Q) && self in lb.listeners
    && (forall l :: l in lb.listeners && l != self ==> DefaultConsistent(l) && (l.defaultPool != null ==> l.defaultPool in l.pools))
    && (forall l, q :: l in lb.listeners && q in l.l7policies ==> Consistent(q) && (Active(q) ==> q.redirectPool in l.pools))
  }

  /** Every listed pool other than the given one is used by a policy. */
  ghost predicate ExactButFor(self: Listener, p: Pool?)
    reads self, self.l7policies
  {
    forall x :: x in self.pools && x != p ==> UsedByOthers(self, x, null)
  }

  method SetDefaultPoolId(self: Listener, value: Option<string>, ghost lb: LoadBalancer, ghost Q: set<L7Policy>)
    requires PoliciesHold(lb, Q, self)
    modifies self`defaultPoolId
    ensures PoliciesHold(lb, Q, self) && self.defaultPoolId == value
    ensures old(ExactButFor(self, self.defaultPool)) ==> ExactButFor(self, self.defaultPool)
  {
    hide NoRepeats;
    self.defaultPoolId := value;
  }

  method DropDefaultPool(self: Listener, ghost lb: LoadBalancer, ghost Q: set<L7Policy>)
    requires PoliciesHold(lb, Q, self)
    modifies self`pools, (set p | p in lb.pools)`listeners
    ensures PoliciesHold(lb, Q, self)
    ensures old(ExactButFor(self, self.defaultPool)) ==> ExactButFor(self, null)
  {
    if self.defaultPool != null {
      var oldPool := self.defaultPool;
      var ids := ActivePoolIds(self);
      if oldPool.id !in ids {
        if oldPool in self.pools {
          DropUnusedPool(self, oldPool, lb, Q);
        }
      } else {
        var q :| q in self.l7policies && Active(q) && q.redirectPool.id == oldPool.id;
        assert ValidListener(lb, Q, self);
        assert UsesByPolicy(q, oldPool);
      }
    }
  }

  method DropUnusedPool(self: Listener, pool: Pool, ghost lb: LoadBalancer, ghost Q: set<L7Policy>)
    requires PoliciesHold(lb, Q, self) && pool in lb.pools && !UsedByOthers(self, pool, null)
    modifies self`pools, pool`listeners
    ensures PoliciesHold(lb, Q, self)
    ensures old(ExactButFor(self, pool)) ==> ExactButFor(self, null)
  {
    RemoveDropsOne(self.pools, pool);
    hide NoRepeats;
    ghost var before := self.pools;
    assert forall q :: q in self.l7policies ==> !UsesByPolicy(q, pool);
    Unlink(self, pool, lb, Q);
    forall x | x in self.pools && old(ExactButFor(self, pool))
      ensures UsedByOthers(self, x, null)
    {
      assert x in before && x != pool && old(UsedByOthers(self, x, null));
    }
  }

  method LinkDefaultPool(self: Listener, pool: Pool, ghost lb: LoadBalancer, ghost Q: set<L7Policy>)
    requires PoliciesHold(lb, Q, self) && pool in lb.pools
    modifies self`pools, pool`listeners
    ensures PoliciesHold(lb, Q, self) && pool in self.pools
    ensures old(ExactButFor(self, null)) ==> ExactButFor(self, pool)
  {
    hide NoRepeats;
    ghost var before := self.pools;
    Link(self, pool, lb, Q);
    forall x | x in self.pools && x != pool && old(ExactButFor(self, null))
      ensures UsedByOthers(self, x, null)
    {
      assert x in before && old(UsedByOthers(self, x, null));
    }
  }

  method SetDefaultPool(self: Listener, pool: Pool?, ghost lb: LoadBalancer, ghost Q: set<L7Policy>)
    requires PoliciesHold(lb, Q, self) && (pool != null ==> pool in lb.pools && pool in self.pools)
    requires self.defaultPoolId == if pool == null then None else Some(pool.id)
    modifies self`defaultPool
    ensures Valid(lb, Q) && self.defaultPool == pool
    ensures old(ExactButFor(self, pool)) ==> Exact(self)
  {
    hide NoRepeats;
    self.defaultPool := pool;
    forall x | x in self.pools && old(ExactButFor(self, pool))
      ensures Uses(self, x)
    {
      if x != pool {
        assert old(UsedByOthers(self, x, null));
        var q :| q in self.l7policies && old(UsesByPolicy(q, x));
        assert UsesByPolicy(q, x);
      }
    }
  }

  lemma DefaultStarts(self: Listener, lb: LoadBalancer, Q: set<L7Policy>)
    requires Valid(lb, Q) && self in lb.listeners
    ensures PoliciesHold(lb, Q, self)
    ensures Exact(self) ==> ExactButFor(self, self.defaultPool)
  {
    hide NoRepeats, Linked;
  }

  /** Listener.update of default_pool_id: the new pool is linked, the old one is
      dropped unless a policy uses it, and an exact list stays exact. */
  method UpdateDefaultPool(self: Listener, value: Option<string>, lb: LoadBalancer, ghost Q: set<L7Policy>)
    requires Valid(lb, Q) && self in lb.listeners
    requires value.Some? ==> exists p :: p in lb.pools && p.id == value.value
    modifies self`defaultPoolId, self`defaultPool, self`pools, (set p | p in lb.pools)`listeners
    ensures Valid(lb, Q)
    ensures self.defaultPoolId == value && (self.defaultPool == null <==> value == None)
    ensures old(Exact(self)) ==> Exact(self)
  {
    DefaultStarts(self, lb, Q);
    hide Valid, PoliciesHold, Exact, ExactButFor, Linked, NoRepeats;
    SetDefaultPoolId(self, value, lb, Q);
    DropDefaultPool(self, lb, Q);
    if value.Some? {
      var pool := FindPool(lb, value.value);
      LinkDefaultPool(self, pool, lb, Q);
      SetDefaultPool(self, pool, lb, Q);
    } else {
      SetDefaultPool(self, null, lb, Q);
    }
  }

  /** The loop of Listener.delete over the pools of the listener. */
  method LeavePools(self: Listener, pools: seq<Pool>)
    requires NoRepeats(pools)
    modifies (set p | p in pools)`listeners
    ensures forall p :: p in pools ==> p.listeners == Remove(old(p.listeners), self)
  {
    var i := 0;
    while i < |pools|
      invariant 0 <= i <= |pools|
      invariant forall j :: 0 <= j < i ==> pools[j].listeners == Remove(old(pools[j].listeners), self)
      invariant forall j :: i <= j < |pools| ==> pools[j].listeners == old(pools[j].listeners)
    {
      pools[i].listeners := Remove(pools[i].listeners, self);
      i := i + 1;
    }
  }

  /** Everything that Valid says about one listener and its policies. */
  ghost predicate ListenerHolds(lb: LoadBalancer, Q: set<L7Policy>, l: Listener)
    reads lb, l, Q
  {
    && ValidListener(lb, Q, l) && DefaultConsistent(l) && Covered(l)
    && forall q :: q in l.l7policies ==> Consistent(q)
  }

  /** What Valid says about the listeners of one pool, with the lists as they were before. */
  ghost predicate PoolHeld(p: Pool, listeners: seq<Listener>, all: seq<Listener>)
    reads all
  {
    && NoRepeats(listeners)
    && (forall l :: l in listeners ==> l in all)
    && (forall l :: l in all ==> (p in l.pools <==> l in listeners))
  }

  lemma HoldsMeansValid(lb: LoadBalancer, Q: set<L7Policy>)
    requires NoRepeats(lb.listeners) && NoRepeats(lb.pools)
    requires forall p, p' :: p in lb.pools && p' in lb.pools && p.id == p'.id ==> p == p'
    requires forall l :: l in lb.listeners ==> ListenerHolds(lb, Q, l)
    requires forall p :: p in lb.pools ==> PoolHeld(p, p.listeners, lb.listeners)
    ensures Valid(lb, Q)
  {
    hide NoRepeats;
  }

  lemma ValidMeansHolds(lb: LoadBalancer, Q: set<L7Policy>)
    requires Valid(lb, Q)
    ensures NoRepeats(lb.listeners) && NoRepeats(lb.pools)
    ensures forall p, p' :: p in lb.pools && p' in lb.pools && p.id == p'.id ==> p == p'
    ensures forall l :: l in lb.listeners ==> ListenerHolds(lb, Q, l)
    ensures forall p :: p in lb.pools ==> PoolHeld(p, p.listeners, lb.listeners)
  {
    hide NoRepeats;
    forall p | p in lb.pools
      ensures PoolHeld(p, p.listeners, lb.listeners)
    {
      assert ValidPool(lb, p);
    }
  }

  lemma PoolWithoutListener(p: Pool, self: Listener, before: seq<Listener>, all: seq<Listener>)
    requires PoolHeld(p, before, all) && NoRepeats(all) && self in all
    ensures PoolHeld(p, Remove(before, self), Remove(all, self))
    ensures p !in self.pools ==> PoolHeld(p, before, Remove(all, self))
    ensures self !in Remove(before, self)
  {
    RemoveDropsOne(before, self);
    RemoveDropsOne(all, self);
    hide NoRepeats;
    forall l | l in Remove(all, self)
      ensures l in all && l != self
    {
      RemoveMember(all, self, l);
    }
    forall l | l in Remove(before, self)
      ensures l in before && l != self
    {
      RemoveMember(before, self, l);
    }
    forall l | l in all && l != self
      ensures l in Remove(before, self) <==> l in before
    {
      RemoveMember(before, self, l);
    }
  }

  /** Listener.delete: the listener leaves the load balancer and the lists of its pools. */
  method DeleteListener(self: Listener, lb: LoadBalancer, ghost Q: set<L7Policy>)
    requires Valid(lb, Q) && self in lb.listeners
    modifies lb`listeners, (set p | p in lb.pools)`listeners
    ensures Valid(lb, Q)
    ensures lb.listeners == Remove(old(lb.listeners), self)
    ensures forall p :: p in lb.pools ==> self !in p.listeners
  {
    ValidMeansHolds(lb, Q);
    RemoveDropsOne(lb.listeners, self);
    assert ListenerHolds(lb, Q, self);
    hide NoRepeats, Valid, Linked, PoolHeld, Covered, DefaultConsistent, Consistent;
    ghost var all := lb.listeners;
    lb.listeners := Remove(lb.listeners, self);
    LeavePools(self, self.pools);
    forall p | p in lb.pools
      ensures PoolHeld(p, p.listeners, lb.listeners)
      ensures self !in p.listeners
    {
      assert old(PoolHeld(p, p.listeners, lb.listeners));
      PoolStays(p, self, old(p.listeners), all);
    }
    HoldsMeansValid(lb, Q);
  }

  lemma PoolStays(p: Pool, self: Listener, before: seq<Listener>, all: seq<Listener>)
    requires PoolHeld(p, before, all) && NoRepeats(all) && self in all
    requires p.listeners == if p in self.pools then Remove(before, self) else before
    ensures PoolHeld(p, p.listeners, Remove(all, self)) && self !in p.listeners
  {
    PoolWithoutListener(p, self, before, all);
  }

  // ---- deleting a pool

  /** The loop over the listeners of the pool. */
  method LeaveListeners(self: Pool, listeners: seq<Listener>)
    requires NoRepeats(listeners)
    modifies (set l | l in listeners)`pools, (set l | l in listeners)`defaultPool, (set l | l in listeners)`defaultPoolId
    ensures forall l :: l in listeners ==> l.pools == Remove(old(l.pools), self)
    ensures forall l :: l in listeners && old(l.defaultPoolId) == Some(self.id) ==> l.defaultPool == null && l.defaultPoolId == None
    ensures forall l :: l in listeners && old(l.defaultPoolId) != Some(self.id) ==>
              l.defaultPool == old(l.defaultPool) && l.defaultPoolId == old(l.defaultPoolId)
  {
    var i := 0;
    while i < |listeners|
      invariant 0 <= i <= |listeners|
      invariant forall j :: 0 <= j < i ==> listeners[j].pools == Remove(old(listeners[j].pools), self)
      invariant forall j :: 0 <= j < i && old(listeners[j].defaultPoolId) == Some(self.id) ==>
        listeners[j].defaultPool == null && listeners[j].defaultPoolId == None
      invariant forall j :: i <= j < |listeners| ==> listeners[j].pools == old(listeners[j].pools)
      invariant forall j :: 0 <= j < |listeners| && (j >= i || old(listeners[j].defaultPoolId) != Some(self.id)) ==>
        listeners[j].defaultPool == old(listeners[j].defaultPool) && listeners[j].defaultPoolId == old(listeners[j].defaultPoolId)
    {
      var l := listeners[i];
      if l.defaultPoolId == Some(self.id) {
        l.defaultPool := null;
        l.defaultPoolId := None;
      }
      l.pools := Remove(l.pools, self);
      i := i + 1;
    }
  }

  /** The loop over the policies of the pool. */
  method RejectPolicies(self: Pool, policies: seq<L7Policy>)
    modifies (set q | q in policies)`action, (set q | q in policies)`redirectPool, (set q | q in policies)`redirectPoolId
    ensures forall q :: q in policies && old(q.redirectPoolId) == Some(self.id) ==>
              q.action == Reject && q.redirectPool == null && q.redirectPoolId == None
    ensures forall q :: q in policies && old(q.redirectPoolId) != Some(self.id) ==>
              q.action == old(q.action) && q.redirectPool == old(q.redirectPool) && q.redirectPoolId == old(q.redirectPoolId)
  {
    var i := 0;
    while i < |policies|
      invariant 0 <= i <= |policies|
      invariant forall q :: q in policies[..i] && old(q.redirectPoolId) == Some(self.id) ==>
        q.action == Reject && q.redirectPool == null && q.redirectPoolId == None
      invariant forall q :: q in policies && (q !in policies[..i] || old(q.redirectPoolId) != Some(self.id)) ==>
        q.action == old(q.action) && q.redirectPool == old(q.redirectPool) && q.redirectPoolId == old(q.redirectPoolId)
    {
      var q := policies[i];
      assert policies[..i + 1] == policies[..i] + [q];
      if q.redirectPoolId == Some(self.id) {
        q.action := Reject;
        q.redirectPool := null;
        q.redirectPoolId := None;
      }
      i := i + 1;
    }
    assert policies[..i] == policies;
  }

  /** A listener and its policies as they were before the pool was deleted. */
  datatype Was = Was(pools: seq<Pool>, defaultPool: Pool?, redirects: map<L7Policy, Pool?>)

  ghost predicate WasUsed(l: Listener, was: Was, p: Pool)
    reads l`l7policies, (set q | q in l.l7policies)`l7rules, (set q | q in l.l7policies)`enabled
  {
    was.defaultPool == p || exists q :: q in l.l7policies && WasUsedBy(q, was, p)
  }

  ghost predicate AllWereUsed(l: Listener, was: Was)
    reads l`l7policies, (set q | q in l.l7policies)`l7rules, (set q | q in l.l7policies)`enabled
  {
    forall p :: p in was.pools ==> WasUsed(l, was, p)
  }

  ghost predicate WasUsedBy(q: L7Policy, was: Was, p: Pool)
    reads q`l7rules, q`enabled
  {
    q in was.redirects && was.redirects[q] == p && q.l7rules != [] && q.enabled
  }

  ghost predicate WasHeld(lbPools: seq<Pool>, Q: set<L7Policy>, l: Listener, was: Was)
    reads l`l7policies, (set q | q in l.l7policies)`l7rules, (set q | q in l.l7policies)`enabled
  {
    && NoRepeats(was.pools) && (forall p :: p in was.pools ==> p in lbPools)
    && (was.defaultPool != null ==> was.defaultPool in was.pools)
    && NoRepeats(l.l7policies)
    && forall q :: q in l.l7policies ==>
         && q in Q && q.listener == l && q in was.redirects
         && (was.redirects[q] != null ==> was.redirects[q] in lbPools)
         && (was.redirects[q] != null && q.l7rules != [] && q.enabled ==> was.redirects[q] in was.pools)
  }

  /** The policies that the pool knows of have lost it too. */
  ghost predicate HasLost(l: Listener, was: Was, self: Pool, known: seq<L7Policy>)
    reads l, l.l7policies
  {
    && l.pools == (if self in was.pools then Remove(was.pools, self) else was.pools)
    && l.defaultPool == (if was.defaultPool == self then null else was.defaultPool)
    && DefaultConsistent(l)
    && forall q :: q in l.l7policies ==>
         && Consistent(q) && q in was.redirects
         && q.redirectPool == if was.redirects[q] == self && q in known then null else was.redirects[q]
  }

  /** The pool knows of every one of the policies that redirected to it. */
  ghost predicate KnewAll(policies: seq<L7Policy>, redirects: map<L7Policy, Pool?>, self: Pool, known: seq<L7Policy>) {
    forall q :: q in policies && q in redirects && redirects[q] == self ==> q in known
  }

  predicate KnowsItsPolicies(self: Pool, lb: LoadBalancer)
    reads self, lb, lb.listeners, (set l, q | l in lb.listeners && q in l.l7policies :: q)
  {
    forall l, q :: l in lb.listeners && q in l.l7policies && q.redirectPool == self ==> q in self.l7policies
  }

  lemma ListenerLosesPool(lb: LoadBalancer, Q: set<L7Policy>, l: Listener, self: Pool, was: Was, lbPools: seq<Pool>,
                          known: seq<L7Policy>)
    requires WasHeld(lbPools, Q, l, was) && HasLost(l, was, self, known)
    requires NoRepeats(lbPools) && lb.pools == Remove(lbPools, self)
    ensures ListenerHolds(lb, Q, l) <==> KnewAll(l.l7policies, was.redirects, self, known)
    ensures forall p :: p in l.pools <==> p in was.pools && p != self
    ensures self !in l.pools && l.defaultPool == if was.defaultPool == self then null else was.defaultPool
    ensures AllWereUsed(l, was) ==> Exact(l)
  {
    RemoveDropsOne(was.pools, self);
    RemoveMember(lbPools, self, self);
    hide NoRepeats;
    forall p | p in lbPools && p != self
      ensures p in lb.pools
    {
      RemoveMember(lbPools, self, p);
    }
    if AllWereUsed(l, was) {
      forall p | p in l.pools
        ensures Uses(l, p)
      {
        assert WasUsed(l, was, p) && p != self;
        if was.defaultPool != p {
          var q :| q in l.l7policies && WasUsedBy(q, was, p);
          assert UsesByPolicy(q, p);
        }
      }
    }
  }

  lemma KnewEverywhere(self: Pool, lb: LoadBalancer, Q: set<L7Policy>, redirects: map<L7Policy, Pool?>)
    requires forall l, q :: l in lb.listeners && q in l.l7policies ==> q in Q
    requires redirects == map q | q in Q :: q.redirectPool
    ensures KnowsItsPolicies(self, lb) <==>
            forall l :: l in lb.listeners ==> KnewAll(l.l7policies, redirects, self, self.l7policies)
  {
    if KnowsItsPolicies(self, lb) {
      forall l | l in lb.listeners
        ensures KnewAll(l.l7policies, redirects, self, self.l7policies)
      {
        assert forall q :: q in l.l7policies ==> q in redirects && redirects[q] == q.redirectPool;
      }
    }
    if forall l :: l in lb.listeners ==> KnewAll(l.l7policies, redirects, self, self.l7policies) {
      forall l, q | l in lb.listeners && q in l.l7policies && q.redirectPool == self
        ensures q in self.l7policies
      {
        assert KnewAll(l.l7policies, redirects, self, self.l7policies) && q in redirects;
      }
    }
  }

  lemma PoliciesInQ(lb: LoadBalancer, Q: set<L7Policy>)
    requires Valid(lb, Q)
    ensures forall l, q :: l in lb.listeners && q in l.l7policies ==> q in Q
  {
    forall l, q | l in lb.listeners && q in l.l7policies
      ensures q in Q
    {
      assert ValidListener(lb, Q, l);
    }
  }

  lemma ValidMeansWas(lb: LoadBalancer, Q: set<L7Policy>, l: Listener, was: Was)
    requires Valid(lb, Q) && l in lb.listeners
    requires was == Was(l.pools, l.defaultPool, map q | q in Q :: q.redirectPool)
    ensures WasHeld(lb.pools, Q, l, was)
    ensures Exact(l) ==> AllWereUsed(l, was)
  {
    assert ValidListener(lb, Q, l) && Covered(l);
    hide NoRepeats;
    if Exact(l) {
      forall p | p in was.pools
        ensures WasUsed(l, was, p)
      {
        assert Uses(l, p);
        if l.defaultPool != p {
          var q :| q in l.l7policies && UsesByPolicy(q, p);
          assert WasUsedBy(q, was, p);
        }
      }
    }
  }

  /** What Valid says about the lists of the pools. */
  ghost predicate PoolsHeld(lb: LoadBalancer)
    reads lb, lb.listeners, lb.pools
  {
    && NoRepeats(lb.listeners) && NoRepeats(lb.pools)
    && (forall p, p' :: p in lb.pools && p' in lb.pools && p.id == p'.id ==> p == p')
    && (forall p :: p in lb.pools ==> PoolHeld(p, p.listeners, lb.listeners))
  }

  lemma ValidIsHeld(lb: LoadBalancer, Q: set<L7Policy>)
    ensures Valid(lb, Q) <==> PoolsHeld(lb) && forall l :: l in lb.listeners ==> ListenerHolds(lb, Q, l)
  {
    hide NoRepeats, Valid, ListenerHolds, PoolHeld;
    if Valid(lb, Q) {
      ValidMeansHolds(lb, Q);
    }
    if PoolsHeld(lb) && forall l :: l in lb.listeners ==> ListenerHolds(lb, Q, l) {
      HoldsMeansValid(lb, Q);
    }
  }

  lemma AllWereHeld(lb: LoadBalancer, Q: set<L7Policy>, redirects: map<L7Policy, Pool?>)
    requires Valid(lb, Q) && redirects == map q | q in Q :: q.redirectPool
    ensures forall l :: l in lb.listeners ==>
              var was := Was(l.pools, l.defaultPool, redirects);
              WasHeld(lb.pools, Q, l, was) && (Exact(l) ==> AllWereUsed(l, was))
  {
    hide Valid, Exact, WasHeld, AllWereUsed;
    forall l | l in lb.listeners
      ensures var was := Was(l.pools, l.defaultPool, redirects);
              WasHeld(lb.pools, Q, l, was) && (Exact(l) ==> AllWereUsed(l, was))
    {
      ValidMeansWas(lb, Q, l, Was(l.pools, l.defaultPool, redirects));
    }
  }

  /** Everything that Pool.delete does to the lists. */
  method RemovePool(self: Pool, lb: LoadBalancer, ghost Q: set<L7Policy>, ghost redirects: map<L7Policy, Pool?>)
    requires Valid(lb, Q) && self in lb.pools
    requires redirects == map q | q in Q :: q.redirectPool
    requires forall q :: q in self.l7policies ==> q in Q
    modifies lb`pools, (set l | l in lb.listeners)`pools, (set l | l in lb.listeners)`defaultPool, (set l | l in lb.listeners)`defaultPoolId
    modifies (set q | q in self.l7policies)`action, (set q | q in self.l7policies)`redirectPool, (set q | q in self.l7policies)`redirectPoolId
    ensures PoolsHeld(lb) && lb.pools == Remove(old(lb.pools), self)
    ensures forall l :: l in lb.listeners ==>
              (ListenerHolds(lb, Q, l) <==> KnewAll(l.l7policies, redirects, self, self.l7policies))
    ensures forall l :: l in lb.listeners ==> self !in l.pools && (old(Exact(l)) ==> Exact(l))
    ensures forall l :: l in lb.listeners ==> l.defaultPool == if old(l.defaultPool) == self then null else old(l.defaultPool)
    ensures forall l, p :: l in lb.listeners ==> (p in l.pools <==> p in old(l.pools) && p != self)
    ensures forall q :: q in self.l7policies ==>
              if old(q.redirectPoolId) == Some(self.id) then q.action == Reject && q.redirectPool == null && q.redirectPoolId == None
              else q.action == old(q.action) && q.redirectPool == old(q.redirectPool) && q.redirectPoolId == old(q.redirectPoolId)
  {
    ValidMeansHolds(lb, Q);
    RemoveDropsOne(lb.pools, self);
    assert PoolHeld(self, self.listeners, lb.listeners);
    hide NoRepeats, Valid, Linked, Exact, WasHeld, HasLost, ListenerHolds, AllWereUsed, KnewAll;
    AllWereHeld(lb, Q, redirects);
    DropEverywhere(self, lb, Q, redirects);
    lb.pools := Remove(lb.pools, self);
    forall l | l in lb.listeners
      ensures ListenerHolds(lb, Q, l) <==> KnewAll(l.l7policies, redirects, self, self.l7policies)
      ensures self !in l.pools && (old(Exact(l)) ==> Exact(l))
      ensures l.defaultPool == if old(l.defaultPool) == self then null else old(l.defaultPool)
      ensures forall p :: p in l.pools <==> p in old(l.pools) && p != self
    {
      ListenerLosesPool(lb, Q, l, self, Was(old(l.pools), old(l.defaultPool), redirects), old(lb.pools), self.l7policies);
    }
    forall p | p in old(lb.pools) && p != self
      ensures PoolHeld(p, p.listeners, lb.listeners)
    {
      assert old(PoolHeld(p, p.listeners, lb.listeners));
    }
    OtherPoolsHeld(lb, self, old(lb.pools));
  }

  /** Pool.delete: every listener that lists the pool drops it, as its default
      pool too, and policies that the pool knows of are turned into rejections.  All is
      well afterwards exactly if the pool knew of every policy that redirects to it. */
  method DeletePool(self: Pool, lb: LoadBalancer, ghost Q: set<L7Policy>)
    requires Valid(lb, Q) && self in lb.pools
    requires forall q :: q in self.l7policies ==> q in Q
    modifies lb`pools, (set l | l in lb.listeners)`pools, (set l | l in lb.listeners)`defaultPool, (set l | l in lb.listeners)`defaultPoolId
    modifies (set q | q in self.l7policies)`action, (set q | q in self.l7policies)`redirectPool, (set q | q in self.l7policies)`redirectPoolId
    ensures Valid(lb, Q) <==> old(KnowsItsPolicies(self, lb))
    ensures lb.pools == Remove(old(lb.pools), self)
    ensures forall l :: l in lb.listeners ==> self !in l.pools && (old(Exact(l)) ==> Exact(l))
    ensures forall l :: l in lb.listeners ==> l.defaultPool == if old(l.defaultPool) == self then null else old(l.defaultPool)
    ensures forall l, p :: l in lb.listeners ==> (p in l.pools <==> p in old(l.pools) && p != self)
    ensures forall q :: q in self.l7policies ==>
              if old(q.redirectPoolId) == Some(self.id) then q.action == Reject && q.redirectPool == null && q.redirectPoolId == None
              else q.action == old(q.action) && q.redirectPool == old(q.redirectPool) && q.redirectPoolId == old(q.redirectPoolId)
  {
    ghost var redirects := map q | q in Q :: q.redirectPool;
    PoliciesInQ(lb, Q);
    KnewEverywhere(self, lb, Q, redirects);
    hide Valid, KnewAll, KnowsItsPolicies, Exact, PoolsHeld, ListenerHolds;
    RemovePool(self, lb, Q, redirects);
    ValidIsHeld(lb, Q);
  }

  lemma OtherPoolsHeld(lb: LoadBalancer, self: Pool, lbPools: seq<Pool>)
    requires NoRepeats(lbPools) && lb.pools == Remove(lbPools, self)
    requires forall p, p' :: p in lbPools && p' in lbPools && p.id == p'.id ==> p == p'
    requires forall p :: p in lbPools && p != self ==> PoolHeld(p, p.listeners, lb.listeners)
    ensures NoRepeats(lb.pools)
    ensures forall p, p' :: p in lb.pools && p' in lb.pools && p.id == p'.id ==> p == p'
    ensures forall p :: p in lb.pools ==> PoolHeld(p, p.listeners, lb.listeners)
  {
    hide PoolHeld;
    RemoveDropsOne(lbPools, self);
    forall p | p in lb.pools
      ensures p in lbPools && p != self
    {
      RemoveMember(lbPools, self, p);
    }
  }

  lemma PoliciesAgree(lb: LoadBalancer, Q: set<L7Policy>)
    requires Valid(lb, Q)
    ensures forall l, q :: l in lb.listeners && q in l.l7policies ==>
              q in Q && Consistent(q) && (q.redirectPool != null ==> q.redirectPool in lb.pools)
    ensures forall l :: l in lb.listeners ==>
              DefaultConsistent(l) && (l.defaultPool != null ==> l.defaultPool in l.pools && l.defaultPool in lb.pools)
  {
    forall l | l in lb.listeners
      ensures ValidListener(lb, Q, l) && Covered(l)
    {
    }
  }

  /** The two loops of Pool.delete, which do not depend on each other. */
  method DropEverywhere(self: Pool, lb: LoadBalancer, ghost Q: set<L7Policy>, ghost redirects: map<L7Policy, Pool?>)
    requires Valid(lb, Q) && self in lb.pools
    requires redirects == map q | q in Q :: q.redirectPool
    requires forall q :: q in self.l7policies ==> q in Q
    requires forall l :: l in lb.listeners ==> WasHeld(lb.pools, Q, l, Was(l.pools, l.defaultPool, redirects))
    modifies (set l | l in lb.listeners)`pools, (set l | l in lb.listeners)`defaultPool, (set l | l in lb.listeners)`defaultPoolId
    modifies (set q | q in self.l7policies)`action, (set q | q in self.l7policies)`redirectPool, (set q | q in self.l7policies)`redirectPoolId
    ensures forall l :: l in lb.listeners ==>
              var was := Was(old(l.pools), old(l.defaultPool), redirects);
              WasHeld(lb.pools, Q, l, was) && HasLost(l, was, self, self.l7policies)
    ensures forall l :: l in lb.listeners ==>
              var was := Was(old(l.pools), old(l.defaultPool), redirects);
              old(AllWereUsed(l, Was(l.pools, l.defaultPool, redirects))) ==> AllWereUsed(l, was)
    ensures forall q :: q in self.l7policies ==>
              if old(q.redirectPoolId) == Some(self.id) then q.action == Reject && q.redirectPool == null && q.redirectPoolId == None
              else q.action == old(q.action) && q.redirectPool == old(q.redirectPool) && q.redirectPoolId == old(q.redirectPoolId)
  {
    hide NoRepeats, Linked, WasHeld, AllWereUsed;
    ValidMeansHolds(lb, Q);
    assert PoolHeld(self, self.listeners, lb.listeners);
    PoliciesAgree(lb, Q);
    hide Valid, ListenerHolds;
    LeaveListeners(self, self.listeners);
    RejectPolicies(self, self.l7policies);
    forall l | l in lb.listeners
      ensures HasLost(l, Was(old(l.pools), old(l.defaultPool), redirects), self, self.l7policies)
    {
      assert self in old(l.pools) <==> l in self.listeners;
      assert forall q :: q in l.l7policies ==> q in Q && old(Consistent(q));
    }
  }

  /** L7Policy.update does not tell the pool of the policy, so deleting a pool that a
      policy has been moved to leaves the policy pointing at it. */
  method DeleteNewTarget(self: L7Policy, pool: Pool, lb: LoadBalancer, ghost Q: set<L7Policy>)
    requires Valid(lb, Q) && self in Q && self.listener in lb.listeners && self in self.listener.l7policies
    requires pool in lb.pools && self !in pool.l7policies && forall q :: q in pool.l7policies ==> q in Q
    modifies self, self.listener, lb`pools, (set p | p in lb.pools)`listeners
    modifies (set l | l in lb.listeners)`pools, (set l | l in lb.listeners)`defaultPool, (set l | l in lb.listeners)`defaultPoolId
    modifies (set q | q in pool.l7policies)`action, (set q | q in pool.l7policies)`redirectPool, (set q | q in pool.l7policies)`redirectPoolId
    ensures !Valid(lb, Q)
  {
    var entries := [ActionKey(RedirectToPool), RedirectPoolIdKey(Some(pool.id)), RedirectUrlKey(None)];
    ghost var target := ToPool(pool.id);
    assert entries[1] == Carrier(target);
    IdsAreUnique(lb, Q);
    hide Valid, Linked, Sanitised;
    UpdatePolicy(self, entries, lb, Q, target);
    assert self.redirectPool == pool;
    DeletePool(pool, lb, Q);
  }

  lemma IdsAreUnique(lb: LoadBalancer, Q: set<L7Policy>)
    requires Valid(lb, Q)
    ensures forall p, p' :: p in lb.pools && p' in lb.pools && p.id == p'.id ==> p == p'
  {
  }

  // ---- what the database derives

  /** The property Listener.pools of the database model. */
  method DerivePools(l: Listener, ghost lb: LoadBalancer, ghost Q: set<L7Policy>) returns (pools: seq<Pool>)
    requires Valid(lb, Q) && l in lb.listeners
    ensures NoRepeats(pools)
    ensures forall p :: p in pools <==> Uses(l, p)
  {
    assert ValidListener(lb, Q, l);
    pools := [];
    var ids := [];
    if l.defaultPool != null {
      pools := [l.defaultPool];
      ids := [l.defaultPool.id];
    }
    for i := 0 to |l.l7policies|
      invariant NoRepeats(pools) && (forall p :: p in pools ==> p in lb.pools)
      invariant |ids| == |pools| && forall j :: 0 <= j < |ids| ==> ids[j] == pools[j].id
      invariant forall p :: p in pools <==> p == l.defaultPool || exists j :: 0 <= j < i && UsesByPolicy(l.l7policies[j], p)
    {
      var q := l.l7policies[i];
      if q.redirectPool != null && q.l7rules != [] && q.enabled {
        if q.redirectPool.id !in ids {
          AppendAddsOne<Pool>(pools, q.redirectPool);
          pools := pools + [q.redirectPool];
          ids := ids + [q.redirectPool.id];
        } else {
          ghost var j :| 0 <= j < |ids| && ids[j] == q.redirectPool.id;
          assert pools[j] == q.redirectPool;
        }
      }
    }
  }

  /** The policy is one of a listener of the load balancer and redirects to the pool. */
  ghost predicate Redirects(lb: LoadBalancer, q: L7Policy, p: Pool)
    reads lb, lb.listeners, q
  {
    q.redirectPool == p && exists l :: l in lb.listeners && q in l.l7policies
  }

  /** The property Pool.listeners of the database model.  Its two relations hold the
      listeners with the pool as default and the policies that redirect to it. */
  method DeriveListeners(p: Pool, defaults: seq<Listener>, policies: seq<L7Policy>, ghost lb: LoadBalancer,
                         ghost Q: set<L7Policy>) returns (listeners: seq<Listener>)
    requires Valid(lb, Q) && p in lb.pools
    requires forall l, l' :: l in lb.listeners && l' in lb.listeners && l.id == l'.id ==> l == l'
    requires NoRepeats(defaults) && forall l :: l in defaults <==> l in lb.listeners && l.defaultPool == p
    requires forall q :: q in policies <==> q in Q && Redirects(lb, q, p)
    ensures NoRepeats(listeners)
    ensures forall l :: l in listeners <==> l in lb.listeners && Uses(l, p)
  {
    PoliciesInQ(lb, Q);
    assert forall l, q :: l in lb.listeners && q in l.l7policies ==> q.listener == l by {
      assert forall l :: l in lb.listeners ==> ValidListener(lb, Q, l);
    }
    hide Valid, Linked;
    listeners := defaults;
    var ids := seq(|defaults|, i requires 0 <= i < |defaults| => defaults[i].id);
    for i := 0 to |policies|
      invariant NoRepeats(listeners) && (forall l :: l in listeners ==> l in lb.listeners)
      invariant |ids| == |listeners| && forall j :: 0 <= j < |ids| ==> ids[j] == listeners[j].id
      invariant forall l :: l in lb.listeners ==>
        (l in listeners <==> l.defaultPool == p || exists j :: 0 <= j < i && policies[j].listener == l && UsesByPolicy(policies[j], p))
    {
      var q := policies[i];
      assert q in policies && Redirects(lb, q, p);
      if q.l7rules != [] && q.enabled {
        if q.listener.id !in ids {
          AppendAddsOne<Listener>(listeners, q.listener);
          listeners := listeners + [q.listener];
          ids := ids + [q.listener.id];
        } else {
          ghost var j :| 0 <= j < |ids| && ids[j] == q.listener.id;
          assert listeners[j] == q.listener;
        }
      }
    }
    forall l | l in lb.listeners
      ensures l in listeners <==> Uses(l, p)
    {
      if q :| q in l.l7policies && UsesByPolicy(q, p) {
        assert Redirects(lb, q, p) && q in policies;
      }
      if j :| 0 <= j < |policies| && policies[j].listener == l && UsesByPolicy(policies[j], p) {
        assert policies[j] in policies && Redirects(lb, policies[j], p);
        var l' :| l' in lb.listeners && policies[j] in l'.l7policies;
      }
    }
  }

  /** In a valid data model both lists hold what the database derives, provided
      nothing unused has been left behind. */
  lemma ListsAreDerived(lb: LoadBalancer, Q: set<L7Policy>, l: Listener, p: Pool)
    requires Valid(lb, Q) && l in lb.listeners && p in lb.pools
    ensures Uses(l, p) ==> p in l.pools && l in p.listeners
    ensures Exact(l) ==> (p in l.pools <==> Uses(l, p)) && (l in p.listeners <==> Uses(l, p))
  {
    hide NoRepeats;
    assert Covered(l);
  }
}
