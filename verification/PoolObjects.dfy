/** The data model objects whose links are kept in lists, and what those lists
    should hold: the database derives them from default pools and L7 policies.
 */
module PoolObjects {
  import opened Sequences
  import opened Wrappers

  // ---- the objects

  datatype Action = Reject | RedirectToUrl | RedirectToPool | RedirectPrefix

  class Pool {
    const id: string
    var listeners: seq<Listener>
    var l7policies: seq<L7Policy>

    constructor (id: string)
      ensures this.id == id && listeners == [] && l7policies == []
    {
      this.id := id;
      listeners, l7policies := [], [];
    }
  }

  class Listener {
    const id: string
    var defaultPool: Pool?
    var defaultPoolId: Option<string>
    var pools: seq<Pool>
    var l7policies: seq<L7Policy>

    constructor (id: string)
      ensures this.id == id && defaultPool == null && defaultPoolId == None && pools == [] && l7policies == []
    {
      this.id := id;
      defaultPool, defaultPoolId, pools, l7policies := null, None, [], [];
    }
  }

  class L7Policy {
    const id: string
    const listener: Listener
    var action: Action
    var redirectPool: Pool?
    var redirectPoolId: Option<string>
    var redirectUrl: Option<string>
    var enabled: bool
    var l7rules: seq<string>

    constructor (id: string, listener: Listener)
      ensures this.id == id && this.listener == listener && action == Reject && redirectPool == null
      ensures redirectPoolId == None && redirectUrl == None && !enabled && l7rules == []
    {
      this.id, this.listener := id, listener;
      action, redirectPool, redirectPoolId, redirectUrl, enabled, l7rules := Reject, null, None, None, false, [];
    }
  }

  class LoadBalancer {
    var listeners: seq<Listener>
    var pools: seq<Pool>

    constructor ()
      ensures listeners == [] && pools == []
    {
      listeners, pools := [], [];
    }
  }

  // ---- what the lists should hold

  /** The policy sends traffic to its pool: it is enabled and has a rule. */
  predicate Active(q: L7Policy)
    reads q`redirectPool, q`l7rules, q`enabled
  {
    q.redirectPool != null && q.l7rules != [] && q.enabled
  }

  predicate UsesByPolicy(q: L7Policy, p: Pool)
    reads q`redirectPool, q`l7rules, q`enabled
  {
    Active(q) && q.redirectPool == p
  }

  /** Some policy of the listener other than the given one uses the pool. */
  ghost predicate UsedByOthers(l: Listener, p: Pool, except: L7Policy?)
    reads l`l7policies, (set q | q in l.l7policies)`redirectPool, (set q | q in l.l7policies)`l7rules, (set q | q in l.l7policies)`enabled
  {
    exists q :: q in l.l7policies && q != except && UsesByPolicy(q, p)
  }

  /** The listener uses the pool: the definition the database derives the lists from. */
  ghost predicate Uses(l: Listener, p: Pool)
    reads l, l.l7policies
  {
    l.defaultPool == p || UsedByOthers(l, p, null)
  }

  ghost predicate ValidListener(lb: LoadBalancer, Q: set<L7Policy>, l: Listener)
    reads lb, l, Q
  {
    && NoRepeats(l.pools) && (forall p :: p in l.pools ==> p in lb.pools)
    && (l.defaultPool != null ==> l.defaultPool in lb.pools)
    && NoRepeats(l.l7policies)
    && (forall q :: q in l.l7policies ==> q in Q && q.listener == l && (q.redirectPool != null ==> q.redirectPool in lb.pools))
  }

  ghost predicate ValidPool(lb: LoadBalancer, p: Pool)
    reads lb, p
  {
    NoRepeats(p.listeners) && forall l :: l in p.listeners ==> l in lb.listeners
  }

  /** Lists without repeats of objects of one load balancer, linked both ways. */
  ghost predicate Linked(lb: LoadBalancer, Q: set<L7Policy>)
    reads lb, lb.listeners, lb.pools, Q
  {
    && NoRepeats(lb.listeners) && NoRepeats(lb.pools)
    && (forall p, p' :: p in lb.pools && p' in lb.pools && p.id == p'.id ==> p == p')
    && (forall l :: l in lb.listeners ==> ValidListener(lb, Q, l))
    && (forall p :: p in lb.pools ==> ValidPool(lb, p))
    && (forall l, p :: l in lb.listeners && p in lb.pools ==> (p in l.pools <==> l in p.listeners))
  }

  /** The policy's action agrees with its pool. */
  predicate Consistent(q: L7Policy)
    reads q
  {
    && (q.action == RedirectToPool <==> q.redirectPool != null)
    && q.redirectPoolId == if q.redirectPool == null then None else Some(q.redirectPool.id)
  }

  predicate DefaultConsistent(l: Listener)
    reads l
  {
    l.defaultPoolId == if l.defaultPool == null then None else Some(l.defaultPool.id)
  }

  /** No pool in use is missing. */
  ghost predicate Covered(l: Listener)
    reads l, l.l7policies
  {
    && (l.defaultPool != null ==> l.defaultPool in l.pools)
    && forall q :: q in l.l7policies && Active(q) ==> q.redirectPool in l.pools
  }

  ghost predicate Valid(lb: LoadBalancer, Q: set<L7Policy>)
    reads lb, lb.listeners, lb.pools, Q
  {
    && Linked(lb, Q)
    && (forall l, q :: l in lb.listeners && q in l.l7policies ==> Consistent(q))
    && (forall l :: l in lb.listeners ==> Covered(l) && DefaultConsistent(l))
  }

  /** No pool is listed without being used. */
  ghost predicate Exact(l: Listener)
    reads l, l.l7policies
  {
    forall p :: p in l.pools ==> Uses(l, p)
  }
}
