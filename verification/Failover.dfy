/** Health managers, API workers and finishing failovers race on three tables.
    A transaction takes row locks, so it is one atomic step; everything else may
    happen between two of them.
 */
module Failover {
  import opened Wrappers

  type LbId = nat
  type AmpId = nat
  type Token = nat

  datatype LbStatus = Active | Error | PendingCreate | PendingUpdate | PendingDelete | Deleted

  datatype AmpStatus = Allocated | FailoverStopped | Booting | Ready | AmpError | AmpPendingDelete | AmpDeleted

  datatype Amphora = Amphora(status: AmpStatus, lb: Option<LbId>)

  datatype Health = Health(lastUpdate: int, busy: bool)

  datatype Tables = Tables(lbs: map<LbId, LbStatus>, amps: map<AmpId, Amphora>, health: map<AmpId, Health>)

  datatype Config = Config(timeout: nat, threshold: Option<nat>)

  predicate IsPending(status: LbStatus) {
    status in {PendingCreate, PendingUpdate, PendingDelete}
  }

  const MUTABLE_STATUSES: set<LbStatus> := {Active}
  const DELETABLE_STATUSES: set<LbStatus> := {Active, Error}
  const FAILOVERABLE_STATUSES: set<LbStatus> := {Active, Error}

  // ---- the effect of one health manager transaction

  predicate IsExpired(t: Tables, expiredTime: int, a: AmpId) {
    a in t.health && !t.health[a].busy && t.health[a].lastUpdate < expiredTime
  }

  function ExpiredIds(t: Tables, expiredTime: int): set<AmpId> {
    set a | a in t.health && IsExpired(t, expiredTime, a)
  }

  predicate IsBack(t: Tables, expiredTime: int, a: AmpId) {
    a in t.health && !t.health[a].busy && t.health[a].lastUpdate >= expiredTime
  }

  /** Stopped amphorae that are idle and heard of again become ALLOCATED. */
  function Unstop(t: Tables, expiredTime: int): Tables {
    t.(amps := map a | a in t.amps ::
      if t.amps[a].status == FailoverStopped && IsBack(t, expiredTime, a) then t.amps[a].(status := Allocated) else t.amps[a])
  }

  /** Every idle stale amphora that is not being deleted is stopped. */
  function Stop(t: Tables, expiredTime: int): Tables {
    t.(amps := map a | a in t.amps ::
      if t.amps[a].status !in {AmpDeleted, AmpPendingDelete} && IsExpired(t, expiredTime, a)
      then t.amps[a].(status := FailoverStopped) else t.amps[a])
  }

  predicate ThresholdReached(t: Tables, expiredTime: int, threshold: Option<nat>) {
    threshold.Some? && |ExpiredIds(t, expiredTime)| >= threshold.value
  }

  predicate IsEligible(t: Tables, expiredTime: int, a: AmpId) {
    IsExpired(t, expiredTime, a) && a in t.amps && t.amps[a].status in {Allocated, FailoverStopped}
  }

  function EligibleIds(t: Tables, expiredTime: int): set<AmpId> {
    set a | a in t.health && IsEligible(t, expiredTime, a)
  }

  lemma EligibleIsBoth(t: Tables, expiredTime: int)
    ensures EligibleIds(t, expiredTime)
         == ExpiredIds(t, expiredTime) * (set a | a in t.amps && t.amps[a].status in {Allocated, FailoverStopped})
  {
  }

  function MarkBusy(t: Tables, a: AmpId): Tables
    requires a in t.health
  {
    t.(health := t.health[a := t.health[a].(busy := true)])
  }

  function SetLb(t: Tables, lb: LbId, status: LbStatus): Tables {
    t.(lbs := t.lbs[lb := status])
  }

  /** The outcome of a transaction: Picked and the quiet outcomes are committed, Lost is rolled back. */
  datatype Outcome = Stopped | Nothing | Lost | Picked(amp: AmpId, lb: Option<LbId>)

  /** The relation between the tables before and after one transaction and its outcome. */
  predicate Transaction(c: Config, now: int, t: Tables, r: Outcome, t': Tables) {
    var expired := now - c.timeout;
    var u := Unstop(t, expired);
    if ThresholdReached(u, expired, c.threshold) then r == Stopped && t' == Stop(u, expired)
    else match r
      case Stopped => false
      case Nothing => EligibleIds(u, expired) == {} && t' == u
      case Lost => t' == t && exists a :: a in EligibleIds(u, expired) && LbRefuses(u, a)
      case Picked(a, lb) =>
        && a in EligibleIds(u, expired) && !LbRefuses(u, a) && lb == u.amps[a].lb
        && t' == if lb.None? then MarkBusy(u, a) else SetLb(MarkBusy(u, a), lb.value, PendingUpdate)
  }

  predicate LbRefuses(t: Tables, a: AmpId)
    requires a in t.amps
  {
    t.amps[a].lb.Some? && t.amps[a].lb.value in t.lbs && t.lbs[t.amps[a].lb.value] !in FAILOVERABLE_STATUSES
  }

  /** Amphorae belong to load balancers that exist. */
  predicate ForeignKeys(t: Tables) {
    forall a :: a in t.amps && t.amps[a].lb.Some? ==> t.amps[a].lb.value in t.lbs
  }

  /** The test of test_and_set_provisioning_status. */
  predicate MayLock(t: Tables, lb: LbId, status: LbStatus)
    requires lb in t.lbs
  {
    t.lbs[lb] in if status == PendingDelete then DELETABLE_STATUSES else MUTABLE_STATUSES
  }

  // ---- the repositories change the rows in place

  class Database {
    var lbs: map<LbId, LbStatus>
    var amps: map<AmpId, Amphora>
    var health: map<AmpId, Health>

    constructor (t: Tables)
      ensures Contents() == t
    {
      lbs, amps, health := t.lbs, t.amps, t.health;
    }

    function Contents(): Tables
      reads this
    {
      Tables(lbs, amps, health)
    }

    method UpdateFailoverStopped(expiredTime: int)
      modifies this`amps
      ensures Contents() == Unstop(old(Contents()), expiredTime)
      ensures amps.Keys == old(amps).Keys && forall a :: a in amps ==>
                amps[a] == if old(amps)[a].status == FailoverStopped
                              && a in health && !health[a].busy && health[a].lastUpdate >= expiredTime
                           then Amphora(Allocated, old(amps)[a].lb) else old(amps)[a]
    {
      var notExpired := set a | a in health && !health[a].busy && health[a].lastUpdate >= expiredTime;
      amps := map a | a in amps ::
        if amps[a].status == FailoverStopped && a in notExpired then amps[a].(status := Allocated) else amps[a];
    }

    method GetStaleAmphora(now: int, c: Config) returns (r: Option<AmpId>)
      modifies this
      ensures var expired := now - c.timeout;
              var u := Unstop(old(Contents()), expired);
              if ThresholdReached(u, expired, c.threshold) then r.None? && Contents() == Stop(u, expired)
              else if EligibleIds(u, expired) == {} then r.None? && Contents() == u
              else r.Some? && r.value in EligibleIds(u, expired) && Contents() == MarkBusy(u, r.value)
      ensures r.Some? ==>
                && r.value in old(amps) && r.value in old(health)
                && (old(amps)[r.value].status == Allocated || old(amps)[r.value].status == FailoverStopped)
                && !old(health)[r.value].busy && old(health)[r.value].lastUpdate < now - c.timeout
                && health == old(health)[r.value := Health(old(health)[r.value].lastUpdate, true)]
      ensures lbs == old(lbs) && (r.None? ==> health == old(health))
    {
      hide Unstop, Stop, EligibleIds, IsEligible;
      var expiredTime := now - c.timeout;
      UpdateFailoverStopped(expiredTime);
      ghost var u := Contents();
      var expiredIds := set a | a in health && !health[a].busy && health[a].lastUpdate < expiredTime;
      assert expiredIds == ExpiredIds(u, expiredTime);
      if c.threshold.Some? && |expiredIds| >= c.threshold.value {
        SetFailoverStopped(expiredTime, expiredIds);
        return None;
      }
      var allocatedIds := set a | a in amps && amps[a].status in {Allocated, FailoverStopped};
      var candidates := expiredIds * allocatedIds;
      EligibleIsBoth(u, expiredTime);
      if candidates == {} {
        return None;
      }
      var a :| a in candidates;
      health := health[a := health[a].(busy := true)];
      r := Some(a);
    }

    method SetFailoverStopped(expiredTime: int, expiredIds: set<AmpId>)
      requires expiredIds == ExpiredIds(Contents(), expiredTime)
      modifies this`amps
      ensures Contents() == Stop(old(Contents()), expiredTime)
      ensures amps.Keys == old(amps).Keys && forall a :: a in amps ==>
                amps[a] == if old(amps)[a].status != AmpDeleted && old(amps)[a].status != AmpPendingDelete
                              && a in health && !health[a].busy && health[a].lastUpdate < expiredTime
                           then Amphora(FailoverStopped, old(amps)[a].lb) else old(amps)[a]
    {
      amps := map a | a in amps ::
        if amps[a].status !in {AmpDeleted, AmpPendingDelete} && a in expiredIds
        then amps[a].(status := FailoverStopped) else amps[a];
    }

    method SetStatusForFailover(lb: LbId, status: LbStatus) returns (ok: bool)
      requires lb in lbs
      modifies this`lbs
      ensures ok <==> old(lbs)[lb] == Active || old(lbs)[lb] == Error
      ensures lbs == if ok then old(lbs)[lb := status] else old(lbs)
      ensures Contents() == if ok then SetLb(old(Contents()), lb, status) else old(Contents())
    {
      ok := lbs[lb] in FAILOVERABLE_STATUSES;
      if ok {
        lbs := lbs[lb := status];
      }
    }

    method TestAndSetProvisioningStatus(lb: LbId, status: LbStatus) returns (ok: bool)
      requires lb in lbs
      modifies this`lbs
      ensures ok <==> MayLock(old(Contents()), lb, status)
      ensures ok <==> old(lbs)[lb] == Active || (status == PendingDelete && old(lbs)[lb] == Error)
      ensures lbs == if ok then old(lbs)[lb := status] else old(lbs)
      ensures Contents() == if ok then SetLb(old(Contents()), lb, status) else old(Contents())
    {
      var acceptable := if status == PendingDelete then DELETABLE_STATUSES else MUTABLE_STATUSES;
      ok := lbs[lb] in acceptable;
      if ok {
        lbs := lbs[lb := status];
      }
    }

    method Rollback(t: Tables)
      modifies this
      ensures Contents() == t
    {
      lbs, amps, health := t.lbs, t.amps, t.health;
    }

    /** One turn of the health check up to its commit or rollback. */
    method HealthTransaction(now: int, c: Config) returns (r: Outcome)
      requires ForeignKeys(Contents())
      modifies this
      ensures Transaction(c, now, old(Contents()), r, Contents())
    {
      var begin := Contents();
      var ampHealth := GetStaleAmphora(now, c);
      var u := Unstop(begin, now - c.timeout);
      if ampHealth.None? {
        if ThresholdReached(u, now - c.timeout, c.threshold) {
          r := Stopped;
        } else {
          r := Nothing;
        }
      } else {
        var a := ampHealth.value;
        var amp := amps[a];
        if amp.lb.Some? {
          var ok := SetStatusForFailover(amp.lb.value, PendingUpdate);
          if !ok {
            Rollback(begin);
            assert a in EligibleIds(u, now - c.timeout) && LbRefuses(u, a);
            return Lost;
          }
        }
        r := Picked(a, amp.lb);
      }
    }
  }

  // ---- the whole system: tables, clock, and who is at work on what

  /** A claim is taken by a committed transaction and given back by the worker that ends the job. */
  datatype Claim = FailoverOf(amp: AmpId, lb: Option<LbId>) | ApiCall(lb': LbId)

  function ClaimedLb(claim: Claim): Option<LbId> {
    match claim
    case FailoverOf(_, lb) => lb
    case ApiCall(lb) => Some(lb)
  }

  datatype System = System(t: Tables, now: int, claims: map<Token, Claim>, next: Token)

  datatype Event =
    | HealthStep(r: Outcome)
    | ApiLock(lb: LbId, status: LbStatus)
    | ApiFailover(lb: LbId)
    | ApiRefused(lb: LbId)
    | Finish(token: Token, result: LbStatus, keepRow: bool, busy: bool)
    | Heartbeat(amp: AmpId)
    | Tick(n: nat)
    | NewLb(lb: LbId)
    | NewAmphora(id: AmpId, row: Amphora)
    | SetAmphoraStatus(id: AmpId, ampStatus: AmpStatus)

  function Claiming(s: System, t: Tables, claim: Claim): System {
    System(t, s.now, s.claims[s.next := claim], s.next + 1)
  }

  function Beat(t: Tables, now: int, a: AmpId): Tables {
    t.(health := t.health[a := if a in t.health then t.health[a].(lastUpdate := now) else Health(now, false)])
  }

  function Released(t: Tables, claim: Claim, result: LbStatus, keepRow: bool, busy: bool): Tables {
    var u := if ClaimedLb(claim).Some? then SetLb(t, ClaimedLb(claim).value, result) else t;
    if claim.FailoverOf? && claim.amp in u.health then
      u.(health := if keepRow then u.health[claim.amp := u.health[claim.amp].(busy := busy)] else u.health - {claim.amp})
    else u
  }

  ghost predicate Next(c: Config, s: System, e: Event, s': System) {
    match e
    case HealthStep(r) =>
      && Transaction(c, s.now, s.t, r, s'.t)
      && s' == if r.Picked? then Claiming(s, s'.t, FailoverOf(r.amp, r.lb)) else s.(t := s'.t)
    case ApiLock(lb, status) =>
      && lb in s.t.lbs && status in {PendingUpdate, PendingDelete} && MayLock(s.t, lb, status)
      && s' == Claiming(s, SetLb(s.t, lb, status), ApiCall(lb))
    case ApiFailover(lb) =>
      && lb in s.t.lbs && s.t.lbs[lb] in FAILOVERABLE_STATUSES
      && s' == Claiming(s, SetLb(s.t, lb, PendingUpdate), ApiCall(lb))
    case ApiRefused(lb) => lb in s.t.lbs && s' == s
    case Finish(token, result, keepRow, busy) =>
      && token in s.claims && !IsPending(result)
      && s' == s.(t := Released(s.t, s.claims[token], result, keepRow, busy), claims := s.claims - {token})
    case Heartbeat(a) => s' == s.(t := Beat(s.t, s.now, a))
    case Tick(n) => s' == s.(now := s.now + n)
    case NewLb(lb) => lb !in s.t.lbs && s' == Claiming(s, SetLb(s.t, lb, PendingCreate), ApiCall(lb))
    case NewAmphora(a, row) =>
      && a !in s.t.amps && (row.lb.Some? ==> row.lb.value in s.t.lbs)
      && s' == s.(t := s.t.(amps := s.t.amps[a := row]))
    case SetAmphoraStatus(a, status) =>
      a in s.t.amps && s' == s.(t := s.t.(amps := s.t.amps[a := s.t.amps[a].(status := status)]))
  }

  // ---- what every step keeps

  /** The claim holds what it locks: a busy health row, a pending load balancer. */
  predicate HoldsItsLocks(t: Tables, claim: Claim) {
    && (claim.FailoverOf? ==> claim.amp in t.health && t.health[claim.amp].busy)
    && (ClaimedLb(claim).Some? ==> ClaimedLb(claim).value in t.lbs && IsPending(t.lbs[ClaimedLb(claim).value]))
    && (claim.FailoverOf? && claim.lb.Some? ==> t.lbs[claim.lb.value] == PendingUpdate)
  }

  predicate Conflict(a: Claim, b: Claim) {
    || (a.FailoverOf? && b.FailoverOf? && a.amp == b.amp)
    || (ClaimedLb(a).Some? && ClaimedLb(a) == ClaimedLb(b))
  }

  ghost predicate IsOwned(claims: map<Token, Claim>, lb: LbId) {
    exists token :: token in claims && ClaimedLb(claims[token]) == Some(lb)
  }

  ghost predicate Inv(s: System) {
    && ForeignKeys(s.t)
    && (forall token :: token in s.claims ==> token < s.next && HoldsItsLocks(s.t, s.claims[token]))
    && (forall i, j :: i in s.claims && j in s.claims && i != j ==> !Conflict(s.claims[i], s.claims[j]))
    && (forall lb :: lb in s.t.lbs && IsPending(s.t.lbs[lb]) ==> IsOwned(s.claims, lb))
  }

  /** Nobody at work and nothing pending. */
  ghost predicate Init(s: System) {
    && ForeignKeys(s.t)
    && s.claims == map[]
    && forall lb :: lb in s.t.lbs ==> !IsPending(s.t.lbs[lb])
  }

  lemma ClaimingKeepsInv(s: System, t: Tables, claim: Claim)
    requires Inv(s) && ForeignKeys(t) && HoldsItsLocks(t, claim)
    requires forall token :: token in s.claims ==> HoldsItsLocks(t, s.claims[token]) && !Conflict(claim, s.claims[token])
    requires forall lb :: lb in t.lbs && IsPending(t.lbs[lb]) ==> Some(lb) == ClaimedLb(claim) || (lb in s.t.lbs && IsPending(s.t.lbs[lb]))
    ensures Inv(Claiming(s, t, claim))
  {
    var s' := Claiming(s, t, claim);
    forall i, j | i in s'.claims && j in s'.claims && i != j
      ensures !Conflict(s'.claims[i], s'.claims[j])
    {
      if i == s.next {
        assert !Conflict(claim, s.claims[j]);
      } else if j == s.next {
        assert !Conflict(claim, s.claims[i]);
      }
    }
    forall lb | lb in t.lbs && IsPending(t.lbs[lb])
      ensures IsOwned(s'.claims, lb)
    {
      if Some(lb) == ClaimedLb(claim) {
        assert s'.claims[s.next] == claim;
      } else {
        var token :| token in s.claims && ClaimedLb(s.claims[token]) == Some(lb);
        assert s'.claims[token] == s.claims[token];
      }
    }
  }

  /** Only statuses of amphorae differ. */
  predicate SameLocks(t: Tables, u: Tables) {
    && u.lbs == t.lbs && u.health == t.health && u.amps.Keys == t.amps.Keys
    && forall a :: a in t.amps ==> u.amps[a].lb == t.amps[a].lb
  }

  lemma StatusesKeepInv(s: System, t: Tables)
    requires Inv(s) && SameLocks(s.t, t)
    ensures Inv(s.(t := t))
  {
  }

  lemma StopAndUnstopKeepLocks(t: Tables, expiredTime: int)
    ensures SameLocks(t, Unstop(t, expiredTime)) && SameLocks(t, Stop(t, expiredTime))
  {
  }

  lemma HealthStepKeepsInv(c: Config, s: System, r: Outcome, s': System)
    requires Inv(s) && Next(c, s, HealthStep(r), s')
    ensures Inv(s')
  {
    hide Unstop, Stop, Inv, Conflict;
    var expired := s.now - c.timeout;
    var u := Unstop(s.t, expired);
    StopAndUnstopKeepLocks(s.t, expired);
    StopAndUnstopKeepLocks(u, expired);
    if r.Picked? {
      StatusesKeepInv(s, u);
      PickKeepsInv(s.(t := u), expired, r.amp);
    } else if r.Lost? {
      assert s' == s;
    } else {
      StatusesKeepInv(s, s'.t);
    }
  }

  lemma PickKeepsInv(s: System, expiredTime: int, a: AmpId)
    requires Inv(s) && IsEligible(s.t, expiredTime, a) && !LbRefuses(s.t, a)
    ensures var lb := s.t.amps[a].lb;
            Inv(Claiming(s, if lb.None? then MarkBusy(s.t, a) else SetLb(MarkBusy(s.t, a), lb.value, PendingUpdate), FailoverOf(a, lb)))
  {
    var lb := s.t.amps[a].lb;
    var t := if lb.None? then MarkBusy(s.t, a) else SetLb(MarkBusy(s.t, a), lb.value, PendingUpdate);
    ClaimingKeepsInv(s, t, FailoverOf(a, lb));
  }

  lemma FinishKeepsInv(c: Config, s: System, token: Token, result: LbStatus, keepRow: bool, busy: bool, s': System)
    requires Inv(s) && Next(c, s, Finish(token, result, keepRow, busy), s')
    ensures Inv(s')
  {
    var done := s.claims[token];
    forall i | i in s'.claims
      ensures HoldsItsLocks(s'.t, s'.claims[i])
    {
      assert !Conflict(s.claims[i], done);
    }
    forall lb | lb in s'.t.lbs && IsPending(s'.t.lbs[lb])
      ensures IsOwned(s'.claims, lb)
    {
      var i :| i in s.claims && ClaimedLb(s.claims[i]) == Some(lb);
      assert i in s'.claims;
    }
  }

  lemma LockKeepsInv(s: System, lb: LbId, status: LbStatus)
    requires Inv(s) && IsPending(status)
    requires lb in s.t.lbs ==> !IsPending(s.t.lbs[lb])
    ensures Inv(Claiming(s, SetLb(s.t, lb, status), ApiCall(lb)))
  {
    ClaimingKeepsInv(s, SetLb(s.t, lb, status), ApiCall(lb));
  }

  lemma StepKeepsInv(c: Config, s: System, e: Event, s': System)
    requires Inv(s) && Next(c, s, e, s')
    ensures Inv(s')
  {
    match e
    case HealthStep(r) => HealthStepKeepsInv(c, s, r, s');
    case ApiLock(lb, status) => LockKeepsInv(s, lb, status);
    case ApiFailover(lb) => LockKeepsInv(s, lb, PendingUpdate);
    case ApiRefused(_) =>
    case Finish(token, result, keepRow, busy) => FinishKeepsInv(c, s, token, result, keepRow, busy, s');
    case Heartbeat(_) =>
    case Tick(_) =>
    case NewLb(lb) => LockKeepsInv(s, lb, PendingCreate);
    case NewAmphora(_, _) =>
    case SetAmphoraStatus(_, _) =>
  }

  // ---- runs

  datatype Run = Run(states: seq<System>, events: seq<Event>)

  ghost predicate IsRun(c: Config, run: Run) {
    && |run.states| == |run.events| + 1
    && forall i :: 0 <= i < |run.events| ==> Next(c, run.states[i], run.events[i], run.states[i + 1])
  }

  lemma {:induction false} InvHolds(c: Config, run: Run, i: nat)
    requires IsRun(c, run) && Inv(run.states[0]) && i < |run.states|
    ensures Inv(run.states[i])
  {
    if i > 0 {
      InvHolds(c, run, i - 1);
      StepKeepsInv(c, run.states[i - 1], run.events[i - 1], run.states[i]);
    }
  }

  /** In every state of every interleaving: no amphora is in two running
      failovers, no load balancer has two owners, a running failover's amphora is
      busy and its load balancer is PENDING_UPDATE, and a load balancer is
      pending exactly while somebody owns it. */
  lemma RunsAreSafe(c: Config, run: Run, i: nat)
    requires IsRun(c, run) && Init(run.states[0]) && i < |run.states|
    ensures var s := run.states[i];
            && (forall j, k :: j in s.claims && k in s.claims && j != k ==> !Conflict(s.claims[j], s.claims[k]))
            && (forall k :: k in s.claims ==> HoldsItsLocks(s.t, s.claims[k]))
            && (forall lb :: lb in s.t.lbs ==> (IsPending(s.t.lbs[lb]) <==> IsOwned(s.claims, lb)))
    ensures var s := run.states[i];
            forall k, a, lb :: k in s.claims && s.claims[k] == FailoverOf(a, lb) ==>
              && a in s.t.health && s.t.health[a].busy
              && (lb.Some? ==> lb.value in s.t.lbs && s.t.lbs[lb.value] == PendingUpdate)
              && forall j :: j in s.claims && j != k ==>
                   && (s.claims[j].FailoverOf? ==> s.claims[j].amp != a && (lb.Some? ==> s.claims[j].lb != lb))
                   && (s.claims[j].ApiCall? ==> Some(s.claims[j].lb') != lb)
  {
    InvHolds(c, run, i);
    var s := run.states[i];
    forall lb | lb in s.t.lbs && IsOwned(s.claims, lb)
      ensures IsPending(s.t.lbs[lb])
    {
      var token :| token in s.claims && ClaimedLb(s.claims[token]) == Some(lb);
      assert HoldsItsLocks(s.t, s.claims[token]);
    }
  }

  /** The locks of a claim are kept until its owner ends: nothing else takes the claim away. */
  lemma {:induction false} ClaimLastsUntilFinish(c: Config, run: Run, i: nat, j: nat, token: Token)
    requires IsRun(c, run) && Init(run.states[0]) && i <= j < |run.states|
    requires token in run.states[i].claims
    requires forall k :: i <= k < j ==> !(run.events[k].Finish? && run.events[k].token == token)
    ensures token in run.states[j].claims && run.states[j].claims[token] == run.states[i].claims[token]
    ensures HoldsItsLocks(run.states[j].t, run.states[i].claims[token])
  {
    InvHolds(c, run, j);
    if i < j {
      ClaimLastsUntilFinish(c, run, i, j - 1, token);
      InvHolds(c, run, j - 1);
      assert Next(c, run.states[j - 1], run.events[j - 1], run.states[j]);
    }
  }

  // ---- staleness and the threshold

  predicate MustStop(t: Tables, expiredTime: int, a: AmpId) {
    IsExpired(t, expiredTime, a) && a in t.amps && t.amps[a].status !in {AmpDeleted, AmpPendingDelete}
  }

  /** What a transaction may pick, and when it stops instead. */
  lemma PickedIsStale(c: Config, s: System, r: Outcome, s': System)
    requires Next(c, s, HealthStep(r), s')
    ensures r.Picked? ==>
              && IsExpired(s.t, s.now - c.timeout, r.amp)
              && r.amp in s.t.amps && s.t.amps[r.amp].status in {Allocated, FailoverStopped}
              && !ThresholdReached(s.t, s.now - c.timeout, c.threshold)
    ensures r.Stopped? <==> ThresholdReached(s.t, s.now - c.timeout, c.threshold)
    ensures r.Stopped? <==>
              && c.threshold.Some?
              && |set a | a in s.t.health && !s.t.health[a].busy && s.t.health[a].lastUpdate < s.now - c.timeout| >= c.threshold.value
    ensures r.Stopped? ==> s'.claims == s.claims && forall a :: a in s.t.amps && MustStop(s.t, s.now - c.timeout, a) ==>
              s'.t.amps[a].status == FailoverStopped
    ensures r.Lost? ==> s' == s
  {
    var expired := s.now - c.timeout;
    assert ExpiredIds(Unstop(s.t, expired), expired) == ExpiredIds(s.t, expired);
    assert ExpiredIds(s.t, expired)
        == set a | a in s.t.health && !s.t.health[a].busy && s.t.health[a].lastUpdate < expired;
  }

  /** The whole effect of a transaction on the three tables, amphora by amphora.  A lost
      one has none.  Any other allocates stopped amphorae that are idle and heard of
      again; at the threshold it stops the idle stale ones that are not being deleted;
      every other amphora keeps its row.  A pick marks one health row busy and one load
      balancer, if there is one, PENDING_UPDATE.
   */
  lemma HealthStepEffect(c: Config, s: System, r: Outcome, s': System)
    requires Next(c, s, HealthStep(r), s')
    ensures r.Lost? ==> s' == s
    ensures !r.Lost? ==> s'.t.amps.Keys == s.t.amps.Keys
    ensures !r.Lost? ==> forall a :: a in s.t.amps ==>
              var stale := a in s.t.health && !s.t.health[a].busy && s.t.health[a].lastUpdate < s.now - c.timeout;
              var back := a in s.t.health && !s.t.health[a].busy && s.t.health[a].lastUpdate >= s.now - c.timeout;
              var status := s.t.amps[a].status;
              s'.t.amps[a] == if r.Stopped? && stale && status != AmpDeleted && status != AmpPendingDelete
                              then Amphora(FailoverStopped, s.t.amps[a].lb)
                              else if status == FailoverStopped && back then Amphora(Allocated, s.t.amps[a].lb)
                              else s.t.amps[a]
    ensures !r.Picked? ==> s'.t.health == s.t.health && s'.t.lbs == s.t.lbs && s'.claims == s.claims
    ensures r.Picked? ==>
              && r.amp in s.t.health && r.amp in s.t.amps && r.lb == s.t.amps[r.amp].lb
              && s'.t.health == s.t.health[r.amp := Health(s.t.health[r.amp].lastUpdate, true)]
              && s'.t.lbs == (if r.lb.Some? then s.t.lbs[r.lb.value := PendingUpdate] else s.t.lbs)
              && s'.claims == s.claims[s.next := FailoverOf(r.amp, r.lb)]
  {
    var expired := s.now - c.timeout;
    assert ExpiredIds(Unstop(s.t, expired), expired) == ExpiredIds(s.t, expired);
  }

  /** The owner's last step gives everything back: the load balancer has the status it
      reports and no owner, and the health row is gone or has the flag it leaves.
   */
  lemma FinishReleases(c: Config, s: System, token: Token, result: LbStatus, keepRow: bool, busy: bool, s': System)
    requires Inv(s) && Next(c, s, Finish(token, result, keepRow, busy), s')
    ensures token !in s'.claims && forall k :: k in s.claims && k != token ==> k in s'.claims && s'.claims[k] == s.claims[k]
    ensures var lb := ClaimedLb(s.claims[token]);
            lb.Some? ==> lb.value in s'.t.lbs && s'.t.lbs[lb.value] == result && !IsOwned(s'.claims, lb.value)
    ensures forall lb :: lb in s.t.lbs && ClaimedLb(s.claims[token]) != Some(lb) ==> lb in s'.t.lbs && s'.t.lbs[lb] == s.t.lbs[lb]
    ensures s.claims[token].FailoverOf? ==>
              var a := s.claims[token].amp;
              && (a in s'.t.health <==> keepRow)
              && (keepRow ==> s'.t.health[a] == Health(s.t.health[a].lastUpdate, busy))
  {
    var lb := ClaimedLb(s.claims[token]);
    if lb.Some? {
      forall k | k in s'.claims
        ensures ClaimedLb(s'.claims[k]) != lb
      {
        assert !Conflict(s.claims[k], s.claims[token]);
      }
    }
  }

  /** A transaction takes an amphora out of FAILOVER_STOPPED only to ALLOCATED, and only one that is idle and heard of. */
  lemma StoppedEndsWithHeartbeat(c: Config, s: System, r: Outcome, s': System, a: AmpId)
    requires Next(c, s, HealthStep(r), s')
    requires a in s.t.amps && s.t.amps[a].status == FailoverStopped
    ensures a in s'.t.amps
    ensures s'.t.amps[a].status != FailoverStopped ==>
              s'.t.amps[a].status == Allocated && IsBack(s.t, s.now - c.timeout, a)
    ensures !ThresholdReached(s.t, s.now - c.timeout, c.threshold) && !r.Lost? && IsBack(s.t, s.now - c.timeout, a) ==>
              s'.t.amps[a].status == Allocated
  {
    var expired := s.now - c.timeout;
    assert ExpiredIds(Unstop(s.t, expired), expired) == ExpiredIds(s.t, expired);
  }

  lemma {:induction false} RowsRememberHeartbeats(c: Config, run: Run, i: nat, j: nat, a: AmpId)
    requires IsRun(c, run) && i < j < |run.states|
    requires run.events[i] == Heartbeat(a)
    ensures run.states[j].now >= run.states[i].now
    ensures a in run.states[j].t.health ==> run.states[j].t.health[a].lastUpdate >= run.states[i].now
  {
    assert Next(c, run.states[j - 1], run.events[j - 1], run.states[j]);
    if i < j - 1 {
      RowsRememberHeartbeats(c, run, i, j - 1, a);
    }
  }

  /** Over every run, an amphora that is picked has not been heard of for longer than the timeout. */
  lemma PickedHasBeenSilent(c: Config, run: Run, i: nat, j: nat, a: AmpId, lb: Option<LbId>)
    requires IsRun(c, run) && i < j < |run.events|
    requires run.events[i] == Heartbeat(a) && run.events[j] == HealthStep(Picked(a, lb))
    ensures run.states[j].now > run.states[i].now + c.timeout
  {
    RowsRememberHeartbeats(c, run, i, j, a);
    assert Next(c, run.states[j], run.events[j], run.states[j + 1]);
    PickedIsStale(c, run.states[j], Picked(a, lb), run.states[j + 1]);
  }

  // ---- one pass of a health manager, with everybody else at work between its transactions

  ghost predicate CanReach(c: Config, s: System, s': System) {
    exists run :: IsRun(c, run) && run.states[0] == s && run.states[|run.states| - 1] == s'
  }

  ghost function Append(a: Run, b: Run): Run
    requires a.states != []
  {
    Run(a.states[..|a.states| - 1] + b.states, a.events + b.events)
  }

  lemma AppendIsRun(c: Config, a: Run, b: Run)
    requires IsRun(c, a) && IsRun(c, b) && a.states[|a.states| - 1] == b.states[0]
    ensures IsRun(c, Append(a, b))
  {
    var r, n := Append(a, b), |a.events|;
    forall i | 0 <= i < |r.events|
      ensures Next(c, r.states[i], r.events[i], r.states[i + 1])
    {
      if i < n {
        assert Next(c, a.states[i], a.events[i], a.states[i + 1]);
        assert r.states[i] == a.states[i] && r.states[i + 1] == a.states[i + 1];
      } else {
        assert Next(c, b.states[i - n], b.events[i - n], b.states[i - n + 1]);
        assert r.states[i] == b.states[i - n] && r.states[i + 1] == b.states[i - n + 1];
      }
    }
  }

  lemma OneStepRun(c: Config, s: System, e: Event, s': System)
    requires Next(c, s, e, s')
    ensures IsRun(c, Run([s, s'], [e]))
  {
  }

  predicate Picks(e: Event, a: AmpId) {
    e.HealthStep? && e.r.Picked? && e.r.amp == a
  }

  /** The k-th submission stands for a picked amphora, committed by this manager at position at[k] of the run. */
  ghost predicate SubmittedAt(run: Run, futs: seq<AmpId>, at: seq<nat>) {
    && |at| == |futs|
    && (forall k :: 0 <= k < |at| ==> at[k] < |run.events| && Picks(run.events[at[k]], futs[k]))
    && forall j, k :: 0 <= j < k < |at| ==> at[j] < at[k]
  }

  /** The run ends with a transaction that picked no amphora. */
  predicate FoundNothing(run: Run) {
    run.events != [] && var last := run.events[|run.events| - 1];
    last.HealthStep? && !last.r.Picked?
  }

  class HealthManager {
    const threads: nat
    const c: Config

    constructor (threads: nat, c: Config)
      requires threads >= 1
      ensures this.threads == threads && this.c == c
    {
      this.threads := threads;
      this.c := c;
    }

    /** others(s, n) is where the rest of the system has got to before the n-th
        transaction of the pass, dead(n) whether the exit event is set by then. */
    method HealthCheck(s0: System, others: (System, nat) -> System, dead: nat -> bool)
      returns (futs: seq<AmpId>, s: System, ghost run: Run, ghost at: seq<nat>)
      requires threads >= 1 && Inv(s0)
      requires forall x, n :: Inv(x) ==> CanReach(c, x, others(x, n))
      ensures IsRun(c, run) && run.states[0] == s0 && run.states[|run.states| - 1] == s && Inv(s)
      ensures SubmittedAt(run, futs, at)
      ensures |futs| <= threads
      ensures |futs| < threads ==> dead(|futs|) || FoundNothing(run)
    {
      hide Next, Inv, Transaction;
      futs, s, at := [], s0, [];
      run := Run([s0], []);
      var n := 0;
      while !dead(n)
        invariant n == |futs| < threads
        invariant IsRun(c, run) && run.states[0] == s0 && run.states[|run.states| - 1] == s && Inv(s)
        invariant SubmittedAt(run, futs, at)
        decreases threads - |futs|
      {
        var before := others(s, n);
        ghost var meanwhile :| IsRun(c, meanwhile) && meanwhile.states[0] == s && meanwhile.states[|meanwhile.states| - 1] == before;
        InvHolds(c, meanwhile, |meanwhile.states| - 1);
        AppendIsRun(c, run, meanwhile);
        run := Append(run, meanwhile);
        InvHasForeignKeys(before);
        var db := new Database(before.t);
        var r := db.HealthTransaction(before.now, c);
        s := if r.Picked? then Claiming(before, db.Contents(), FailoverOf(r.amp, r.lb)) else before.(t := db.Contents());
        HealthStepIsNext(c, before, r, db.Contents(), s);
        StepKeepsInv(c, before, HealthStep(r), s);
        OneStepRun(c, before, HealthStep(r), s);
        AppendIsRun(c, run, Run([before, s], [HealthStep(r)]));
        ghost var step := |run.events|;
        run := Append(run, Run([before, s], [HealthStep(r)]));
        if !r.Picked? {
          assert run.events[|run.events| - 1] == HealthStep(r);
          break;
        }
        futs := futs + [r.amp];
        at := at + [step];
        n := n + 1;
        if |futs| == threads {
          break;
        }
      }
    }
  }

  lemma InvHasForeignKeys(s: System)
    requires Inv(s)
    ensures ForeignKeys(s.t)
  {
  }

  lemma HealthStepIsNext(c: Config, s: System, r: Outcome, t': Tables, s': System)
    requires Transaction(c, s.now, s.t, r, t')
    requires s' == if r.Picked? then Claiming(s, t', FailoverOf(r.amp, r.lb)) else s.(t := t')
    ensures Next(c, s, HealthStep(r), s')
  {
    hide Transaction;
  }

  /** An API worker locks a load balancer: what the repository does to the tables is
      a step of the system, a claim if the test holds and nothing otherwise. */
  method ApiLockTransaction(db: Database, c: Config, s: System, lb: LbId, status: LbStatus) returns (s': System)
    requires db.Contents() == s.t && lb in s.t.lbs && status in {PendingUpdate, PendingDelete}
    modifies db
    ensures db.Contents() == s'.t
    ensures Next(c, s, if MayLock(s.t, lb, status) then ApiLock(lb, status) else ApiRefused(lb), s')
  {
    var ok := db.TestAndSetProvisioningStatus(lb, status);
    s' := if ok then Claiming(s, db.Contents(), ApiCall(lb)) else s;
  }

  /** A failover of a load balancer that an operator asks for. */
  method ApiFailoverTransaction(db: Database, c: Config, s: System, lb: LbId) returns (s': System)
    requires db.Contents() == s.t && lb in s.t.lbs
    modifies db
    ensures db.Contents() == s'.t
    ensures Next(c, s, if s.t.lbs[lb] in FAILOVERABLE_STATUSES then ApiFailover(lb) else ApiRefused(lb), s')
  {
    var ok := db.SetStatusForFailover(lb, PendingUpdate);
    s' := if ok then Claiming(s, db.Contents(), ApiCall(lb)) else s;
  }
}
