/** From the sanitiser to the data model: what its dictionaries ask of L7Policy.update,
    and what runs of updates and deletions keep.
 */
module PolicyRuns {
  import A = PolicyArgs
  import opened PoolObjects
  import opened PolicySteps
  import opened PoolLinks
  import opened Sequences
  import opened Wrappers

  // ---- sanitised arguments as an update dictionary

  predicate TextOrNull(entry: Option<A.Val>) {
    entry.None? || entry.value == A.Null || (entry.value.Text? && entry.value.s != "")
  }

  /** The arguments of an update: targets are texts or None, and pools are named by id. */
  predicate IsPlain(a: A.Args) {
    a.redirectPool.None? && TextOrNull(a.redirectPoolId) && TextOrNull(a.redirectUrl) && TextOrNull(a.redirectPrefix)
  }

  function TargetOf(a: A.Args): Target
    requires IsPlain(a)
  {
    if A.Has(a.redirectPoolId) then ToPool(a.redirectPoolId.value.s)
    else if A.Has(a.redirectUrl) then ToUrl(a.redirectUrl.value.s)
    else if A.Has(a.redirectPrefix) then ToPrefix
    else if a.action.Some? then ToReject
    else Keep
  }

  function NameOf(action: Action): A.Val {
    match action
    case Reject => A.REJECT
    case RedirectToUrl => A.TO_URL
    case RedirectToPool => A.TO_POOL
    case RedirectPrefix => A.PREFIX
  }

  predicate Holds(entry: Option<A.Val>, v: Option<string>) {
    entry == Some(if v.None? then A.Null else A.Text(v.value))
  }

  /** The entries are those of the dictionary, in some order, with any other keys. */
  ghost predicate IsDictionaryOf(entries: seq<Entry>, a: A.Args) {
    && DistinctKeys(entries)
    && (forall v :: RedirectPoolIdKey(v) in entries <==> Holds(a.redirectPoolId, v))
    && (forall v :: RedirectUrlKey(v) in entries <==> Holds(a.redirectUrl, v))
    && (forall x :: ActionKey(x) in entries <==> a.action == Some(NameOf(x)))
    && (forall n :: PositionKey(n) in entries ==> n >= 1)
  }

  /** What the sanitiser lets through is a dictionary that L7Policy.update is proved for. */
  lemma SettledIsSanitised(a: A.Args, isUrl: A.Val -> bool, entries: seq<Entry>)
    requires A.Settled(a, isUrl) && IsPlain(a) && IsDictionaryOf(entries, a)
    ensures Sanitised(entries, TargetOf(a))
    ensures Forgets(entries, TargetOf(a)) <==>
            A.Has(a.redirectPrefix) || (a.action.None? && a.redirectPoolId.Some?)
  {
    var target := TargetOf(a);
    forall i | 0 <= i < |entries|
      ensures Fits(entries[i], target)
    {
      var e := entries[i];
      assert e in entries;
      match e
      case RedirectPoolIdKey(v) => assert Holds(a.redirectPoolId, v);
      case RedirectUrlKey(v) => assert Holds(a.redirectUrl, v);
      case ActionKey(x) => assert a.action == Some(NameOf(x));
      case _ =>
    }
    if target.ToPool? {
      assert Holds(a.redirectPoolId, Some(target.id));
    } else if target.ToUrl? {
      assert Holds(a.redirectUrl, Some(target.newUrl));
    } else if a.redirectPoolId.Some? {
      assert Holds(a.redirectPoolId, None);
    }
  }

  /** The same from the arguments of the caller on. */
  lemma SanitiserFeedsUpdate(args: A.Args, isUrl: A.Val -> bool, entries: seq<Entry>)
    requires A.Sanitized(args, false, isUrl).Ok? && IsPlain(args)
    requires IsDictionaryOf(entries, A.Sanitized(args, false, isUrl).value)
    ensures var a := A.Sanitized(args, false, isUrl).value;
            && IsPlain(a) && Sanitised(entries, TargetOf(a))
            && (Forgets(entries, TargetOf(a)) <==>
                A.Has(a.redirectPrefix) || (!A.Decides(args) && args.redirectPoolId.Some?))
  {
    A.SanitizedIsSettled(args, false, isUrl);
    A.SanitizedIsConsistent(args, false, isUrl);
    var a := A.Sanitized(args, false, isUrl).value;
    assert IsPlain(a);
    assert !A.Decides(args) ==> a == args;
    hide A.Sanitized;
    SettledIsSanitised(a, isUrl, entries);
  }

  // ---- runs

  datatype Operation =
    | UpdatePolicyTo(policy: L7Policy, entries: seq<Entry>, target: Target)
    | RemovePolicy(policy: L7Policy)
    | RemoveRule(policy: L7Policy, rule: string)
    | SetDefault(listener: Listener, poolId: Option<string>)
    | RemoveListener(listener: Listener)
    | RemovePoolFrom(pool: Pool)

  predicate IsLive(policy: L7Policy, lb: LoadBalancer)
    reads lb, lb.listeners
  {
    policy.listener in lb.listeners && policy in policy.listener.l7policies
  }

  predicate NamesLivePool(lb: LoadBalancer, id: string)
    reads lb
  {
    exists p :: p in lb.pools && p.id == id
  }

  /** The pools' lists of policies name policies of the load balancer only. */
  ghost predicate PoliciesKnown(lb: LoadBalancer, Q: set<L7Policy>)
    reads lb, lb.pools
  {
    forall p, q :: p in lb.pools && q in p.l7policies ==> q in Q
  }

  ghost predicate Sound(lb: LoadBalancer, Q: set<L7Policy>)
    reads lb, lb.listeners, lb.pools, Q
  {
    Valid(lb, Q) && PoliciesKnown(lb, Q)
  }

  /** The policy does what its last update asked for. */
  ghost predicate LeadsTo(q: L7Policy, target: Target)
    reads q
  {
    match target
    case ToPool(id) =>
      && q.action == RedirectToPool && q.redirectPool != null && q.redirectPool.id == id
      && q.redirectPoolId == Some(id) && q.redirectUrl == None
    case ToUrl(url) => q.action == RedirectToUrl && q.redirectPool == null && q.redirectPoolId == None && q.redirectUrl == Some(url)
    case ToReject => q.action == Reject && q.redirectPool == null && q.redirectPoolId == None && q.redirectUrl == None
    case ToPrefix => q.action == RedirectPrefix
    case Keep => true
  }

  method PerformUpdate(self: L7Policy, entries: seq<Entry>, target: Target, lb: LoadBalancer, ghost Q: set<L7Policy>)
    requires Sound(lb, Q) && self in Q && IsLive(self, lb) && Sanitised(entries, target)
    requires target.ToPool? ==> NamesLivePool(lb, target.id)
    requires self.redirectPool == null || !Forgets(entries, target)
    modifies self, self.listener`pools, self.listener`l7policies, (set p | p in lb.pools)`listeners
    ensures Sound(lb, Q)
    ensures LeadsTo(self, target)
    ensures self.enabled <==> EnabledKey(true) in entries || (old(self.enabled) && EnabledKey(false) !in entries)
    ensures forall l :: l in lb.listeners && old(Exact(l)) && l.defaultPool != null ==> Exact(l)
  {
    assert forall l :: l in lb.listeners ==> ValidListener(lb, Q, l);
    hide Linked, NoRepeats, Sanitised, Forgets;
    UpdatePolicy(self, entries, lb, Q, target);
  }

  method PerformRemovePolicy(self: L7Policy, lb: LoadBalancer, ghost Q: set<L7Policy>)
    requires Sound(lb, Q) && self in Q && IsLive(self, lb)
    modifies self.listener`pools, self.listener`l7policies, (set p | p in lb.pools)`listeners, (set p | p in lb.pools)`l7policies
    ensures Sound(lb, Q)
    ensures self !in self.listener.l7policies
    ensures forall l :: l in lb.listeners && old(Exact(l)) && l.defaultPool != null ==> Exact(l)
  {
    assert forall l :: l in lb.listeners ==> ValidListener(lb, Q, l);
    if self.redirectPool != null {
      RemoveMembers(self.redirectPool.l7policies, self);
    }
    hide Linked, NoRepeats;
    DeletePolicy(self, lb, Q);
  }

  method PerformRemoveRule(self: L7Policy, rule: string, lb: LoadBalancer, ghost Q: set<L7Policy>)
    requires Sound(lb, Q) && self in Q && IsLive(self, lb) && rule in self.l7rules
    modifies self`l7rules, self.listener`pools, self.listener`l7policies
    modifies (set p | p in lb.pools)`listeners, (set p | p in lb.pools)`l7policies
    ensures Sound(lb, Q)
    ensures self.l7rules == Remove(old(self.l7rules), rule)
    ensures self in self.listener.l7policies <==> |old(self.l7rules)| > 1
    ensures forall l :: l in lb.listeners && old(Exact(l)) && l.defaultPool != null ==> Exact(l)
  {
    assert forall l :: l in lb.listeners ==> ValidListener(lb, Q, l);
    if self.redirectPool != null {
      RemoveMembers(self.redirectPool.l7policies, self);
    }
    RemoveMember(self.listener.l7policies, self, self);
    hide Linked, NoRepeats;
    DeleteRule(self, rule, lb, Q);
  }

  method PerformSetDefault(self: Listener, poolId: Option<string>, lb: LoadBalancer, ghost Q: set<L7Policy>)
    requires Sound(lb, Q) && self in lb.listeners && (poolId.Some? ==> NamesLivePool(lb, poolId.value))
    modifies self`defaultPoolId, self`defaultPool, self`pools, (set p | p in lb.pools)`listeners
    ensures Sound(lb, Q)
    ensures poolId == if self.defaultPool == null then None else Some(self.defaultPool.id)
    ensures forall l :: l in lb.listeners && old(Exact(l)) && l.defaultPool != null ==> Exact(l)
  {
    assert forall l :: l in lb.listeners ==> ValidListener(lb, Q, l);
    hide Linked, NoRepeats;
    UpdateDefaultPool(self, poolId, lb, Q);
  }

  method PerformRemoveListener(self: Listener, lb: LoadBalancer, ghost Q: set<L7Policy>)
    requires Sound(lb, Q) && self in lb.listeners
    modifies lb`listeners, (set p | p in lb.pools)`listeners
    ensures Sound(lb, Q)
    ensures lb.listeners == Remove(old(lb.listeners), self) && self !in lb.listeners
    ensures forall p :: p in lb.pools ==> self !in p.listeners
    ensures forall l :: l in lb.listeners ==> l in old(lb.listeners) && Exact(l) == old(Exact(l))
  {
    assert NoRepeats(lb.listeners);
    RemoveMembers(lb.listeners, self);
    hide Valid, NoRepeats;
    DeleteListener(self, lb, Q);
  }

  lemma RemoveMembers<T>(s: seq<T>, x: T)
    ensures forall y :: y in Remove(s, x) ==> y in s
    ensures NoRepeats(s) ==> x !in Remove(s, x)
  {
    RemoveMember(s, x, x);
    forall y | y in Remove(s, x)
      ensures y in s
    {
      RemoveMember(s, x, y);
    }
  }

  method PerformRemovePool(self: Pool, lb: LoadBalancer, ghost Q: set<L7Policy>)
    requires Sound(lb, Q) && self in lb.pools && KnowsItsPolicies(self, lb)
    modifies lb`pools, (set l | l in lb.listeners)`pools, (set l | l in lb.listeners)`defaultPool, (set l | l in lb.listeners)`defaultPoolId
    modifies (set q | q in self.l7policies)`action, (set q | q in self.l7policies)`redirectPool, (set q | q in self.l7policies)`redirectPoolId
    ensures Sound(lb, Q)
    ensures lb.pools == Remove(old(lb.pools), self) && self !in lb.pools
    ensures forall p :: p in lb.pools ==> p in old(lb.pools)
    ensures forall l :: l in lb.listeners ==> self !in l.pools
    ensures forall q :: q in old(self.l7policies) && old(q.redirectPoolId) == Some(self.id) ==>
              q.action == Reject && q.redirectPool == null && q.redirectPoolId == None
    ensures forall l :: l in lb.listeners && old(Exact(l)) ==> Exact(l)
    ensures forall l :: l in lb.listeners ==> l.defaultPool == if old(l.defaultPool) == self then null else old(l.defaultPool)
  {
    assert NoRepeats(lb.pools);
    RemoveMembers(lb.pools, self);
    hide Valid, NoRepeats, KnowsItsPolicies, Exact;
    DeletePool(self, lb, Q);
  }

  /** Whether the operation is one the program would carry out on these objects, and
      one that is not among the updates and deletions found to lose track of a pool. */
  predicate Allowed(op: Operation, lb: LoadBalancer)
    reads lb, lb.listeners, lb.pools, (set l, q | l in lb.listeners && q in l.l7policies :: q)
  {
    match op
    case UpdatePolicyTo(policy, entries, target) =>
      && IsLive(policy, lb) && Sanitised(entries, target)
      && (target.ToPool? ==> NamesLivePool(lb, target.id))
      && (policy.redirectPool == null || !Forgets(entries, target))
    case RemovePolicy(policy) => IsLive(policy, lb)
    case RemoveRule(policy, rule) => IsLive(policy, lb) && rule in policy.l7rules
    case SetDefault(listener, poolId) => listener in lb.listeners && (poolId.Some? ==> NamesLivePool(lb, poolId.value))
    case RemoveListener(listener) => listener in lb.listeners
    case RemovePoolFrom(pool) => pool in lb.pools && KnowsItsPolicies(pool, lb)
  }

  /** What becomes of the default pool of a listener. */
  predicate DefaultAfter(op: Operation, l: Listener, before: Pool?, after: Pool?) {
    if op.SetDefault? && op.listener == l then op.poolId == if after == null then None else Some(after.id)
    else if op.RemovePoolFrom? && op.pool == before then after == null
    else after == before
  }

  method Perform(op: Operation, lb: LoadBalancer, ghost Q: set<L7Policy>)
    requires Sound(lb, Q) && Allowed(op, lb)
    modifies lb, (set l | l in lb.listeners), (set p | p in lb.pools), Q
    ensures Sound(lb, Q)
    ensures forall l :: l in lb.listeners ==> l in old(lb.listeners)
    ensures forall p :: p in lb.pools ==> p in old(lb.pools)
    ensures op.UpdatePolicyTo? ==>
              && LeadsTo(op.policy, op.target)
              && (op.policy.enabled <==>
                  EnabledKey(true) in op.entries || (old(op.policy.enabled) && EnabledKey(false) !in op.entries))
    ensures op.RemovePolicy? ==> op.policy !in op.policy.listener.l7policies
    ensures op.RemoveRule? ==>
              && op.policy.l7rules == Remove(old(op.policy.l7rules), op.rule)
              && (op.policy in op.policy.listener.l7policies <==> |old(op.policy.l7rules)| > 1)
    ensures op.SetDefault? ==> op.poolId == if op.listener.defaultPool == null then None else Some(op.listener.defaultPool.id)
    ensures lb.listeners == if op.RemoveListener? then Remove(old(lb.listeners), op.listener) else old(lb.listeners)
    ensures op.RemoveListener? ==> op.listener !in lb.listeners && forall p :: p in lb.pools ==> op.listener !in p.listeners
    ensures lb.pools == if op.RemovePoolFrom? then Remove(old(lb.pools), op.pool) else old(lb.pools)
    ensures op.RemovePoolFrom? ==>
              && op.pool !in lb.pools && (forall l :: l in lb.listeners ==> op.pool !in l.pools)
              && forall q :: q in old(op.pool.l7policies) && old(q.redirectPoolId) == Some(op.pool.id) ==>
                   q.action == Reject && q.redirectPool == null && q.redirectPoolId == None
    ensures forall l :: l in lb.listeners ==> DefaultAfter(op, l, old(l.defaultPool), l.defaultPool)
    ensures forall l :: l in lb.listeners && old(Exact(l)) && l.defaultPool != null ==> Exact(l)
  {
    LiveInQ(lb, Q);
    hide Sound, Exact, Valid;
    match op
    case UpdatePolicyTo(policy, entries, target) => PerformUpdate(policy, entries, target, lb, Q);
    case RemovePolicy(policy) => PerformRemovePolicy(policy, lb, Q);
    case RemoveRule(policy, rule) => PerformRemoveRule(policy, rule, lb, Q);
    case SetDefault(listener, poolId) => PerformSetDefault(listener, poolId, lb, Q);
    case RemoveListener(listener) => PerformRemoveListener(listener, lb, Q);
    case RemovePoolFrom(pool) =>
      SoundKnows(lb, Q);
      PerformRemovePool(pool, lb, Q);
  }

  lemma SoundKnows(lb: LoadBalancer, Q: set<L7Policy>)
    requires Sound(lb, Q)
    ensures PoliciesKnown(lb, Q)
  {
  }

  lemma LiveInQ(lb: LoadBalancer, Q: set<L7Policy>)
    requires Sound(lb, Q)
    ensures forall q: L7Policy :: q.listener in lb.listeners && q in q.listener.l7policies ==> q in Q
  {
    PoliciesInQ(lb, Q);
  }

  /** The default pools of the listeners before each of the operations done, and after
      the last: each differs from the one before as the operation says.
   */
  ghost predicate IsHistory(ops: seq<Operation>, defaults: seq<map<Listener, Pool?>>) {
    && 0 < |defaults| <= |ops| + 1
    && forall i :: 0 < i < |defaults| ==> IsNextEntry(ops[i - 1], defaults[i - 1], defaults[i])
  }

  ghost predicate IsNextEntry(op: Operation, before: map<Listener, Pool?>, after: map<Listener, Pool?>) {
    forall l :: l in after ==> l in before && DefaultAfter(op, l, before[l], after[l])
  }

  /** The listener had a default pool in every state. */
  ghost predicate AlwaysHadDefault(l: Listener, defaults: seq<map<Listener, Pool?>>) {
    forall i :: 0 <= i < |defaults| ==> l in defaults[i] && defaults[i][l] != null
  }

  ghost function Defaults(lb: LoadBalancer): map<Listener, Pool?>
    reads lb, lb.listeners
  {
    map l | l in lb.listeners :: l.defaultPool
  }

  lemma HistoryGrows(ops: seq<Operation>, defaults: seq<map<Listener, Pool?>>, next: map<Listener, Pool?>)
    requires IsHistory(ops, defaults) && |defaults| <= |ops|
    requires IsNextEntry(ops[|defaults| - 1], defaults[|defaults| - 1], next)
    ensures IsHistory(ops, defaults + [next])
    ensures forall l :: AlwaysHadDefault(l, defaults + [next]) ==>
              AlwaysHadDefault(l, defaults) && l in next && next[l] != null
  {
    var longer := defaults + [next];
    forall l | AlwaysHadDefault(l, longer)
      ensures AlwaysHadDefault(l, defaults) && l in next && next[l] != null
    {
      assert longer[|defaults|] == next;
      assert forall i :: 0 <= i < |defaults| ==> longer[i] == defaults[i];
    }
  }

  /** Over every run of updates and deletions on a load balancer, up to the first that
      is not allowed in its state, the data model stays valid; and both lists of a
      listener that had a default pool in every state hold exactly what the database
      derives, whatever pools were its default on the way and have been deleted since.
   */
  method Run(ops: seq<Operation>, lb: LoadBalancer, ghost Q: set<L7Policy>)
    returns (n: nat, ghost defaults: seq<map<Listener, Pool?>>)
    requires Sound(lb, Q)
    modifies lb, (set l | l in lb.listeners), (set p | p in lb.pools), Q
    ensures Sound(lb, Q)
    ensures n <= |ops| && (n < |ops| ==> !Allowed(ops[n], lb))
    ensures |defaults| == n + 1 && IsHistory(ops, defaults)
    ensures defaults[0] == old(Defaults(lb)) && defaults[n] == Defaults(lb)
    ensures forall l :: l in lb.listeners ==> l in old(lb.listeners)
    ensures forall l :: l in lb.listeners && AlwaysHadDefault(l, defaults) && old(Exact(l)) ==> Exact(l)
    ensures forall l, p :: l in lb.listeners && p in lb.pools && AlwaysHadDefault(l, defaults) && old(Exact(l)) ==>
              (p in l.pools <==> Uses(l, p)) && (l in p.listeners <==> Uses(l, p))
  {
    defaults := [Defaults(lb)];
    hide Sound, Exact, Allowed, DefaultAfter;
    n := 0;
    while n < |ops| && Allowed(ops[n], lb)
      invariant n <= |ops|
      invariant Sound(lb, Q)
      invariant forall l :: l in lb.listeners ==> l in old(lb.listeners)
      invariant forall p :: p in lb.pools ==> p in old(lb.pools)
      invariant |defaults| == n + 1 && IsHistory(ops, defaults)
      invariant defaults[0] == old(Defaults(lb)) && defaults[n] == Defaults(lb)
      invariant forall l :: l in lb.listeners && AlwaysHadDefault(l, defaults) && old(Exact(l)) ==> Exact(l)
    {
      Perform(ops[n], lb, Q);
      HistoryGrows(ops, defaults, Defaults(lb));
      hide AlwaysHadDefault, IsHistory;
      defaults := defaults + [Defaults(lb)];
      n := n + 1;
    }
    forall l, p | l in lb.listeners && p in lb.pools && AlwaysHadDefault(l, defaults) && old(Exact(l))
      ensures (p in l.pools <==> Uses(l, p)) && (l in p.listeners <==> Uses(l, p))
    {
      SoundIsValid(lb, Q);
      ListsAreDerived(lb, Q, l, p);
    }
  }

  lemma SoundIsValid(lb: LoadBalancer, Q: set<L7Policy>)
    requires Sound(lb, Q)
    ensures Valid(lb, Q)
  {
  }
}
