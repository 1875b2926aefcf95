/** L7Policy.update on values: what one key of the update dictionary makes of the
    policy and of the list of its listener's pools, and what a whole dictionary
    makes of them, in whatever order its keys come.
 */
module PolicySteps {
  import opened PoolObjects
  import opened Wrappers

  // ---- update dictionaries

  datatype Entry =
    | RedirectPoolIdKey(poolId: Option<string>)
    | RedirectUrlKey(url: Option<string>)
    | ActionKey(action: Action)
    | PositionKey(position: nat)
    | EnabledKey(value: bool)
    | OtherKey(name: string)

  predicate SameKey(a: Entry, b: Entry) {
    || (a.RedirectPoolIdKey? && b.RedirectPoolIdKey?)
    || (a.RedirectUrlKey? && b.RedirectUrlKey?)
    || (a.ActionKey? && b.ActionKey?)
    || (a.PositionKey? && b.PositionKey?)
    || (a.EnabledKey? && b.EnabledKey?)
    || (a.OtherKey? && a == b)
  }

  /** A dictionary holds each key once. */
  predicate DistinctKeys(entries: seq<Entry>) {
    forall i, j :: 0 <= i < j < |entries| ==> !SameKey(entries[i], entries[j])
  }

  /** What a dictionary asks for once the sanitiser has made it consistent. */
  datatype Target = Keep | ToPool(id: string) | ToUrl(newUrl: string) | ToPrefix | ToReject

  function ActionOf(target: Target): Action
    requires !target.Keep?
  {
    match target
    case ToPool(_) => RedirectToPool
    case ToUrl(_) => RedirectToUrl
    case ToPrefix => RedirectPrefix
    case ToReject => Reject
  }

  predicate Fits(e: Entry, target: Target) {
    match e
    case RedirectPoolIdKey(v) => v == if target.ToPool? then Some(target.id) else None
    case RedirectUrlKey(v) => v == if target.ToUrl? then Some(target.newUrl) else None
    case ActionKey(a) => !target.Keep? && a == ActionOf(target)
    case PositionKey(n) => n >= 1
    case EnabledKey(_) => true
    case OtherKey(_) => true
  }

  /** The entry that carries out the change of target. */
  function Carrier(target: Target): Entry
    requires !target.Keep?
  {
    match target
    case ToPool(id) => RedirectPoolIdKey(Some(id))
    case ToUrl(url) => RedirectUrlKey(Some(url))
    case ToPrefix => ActionKey(RedirectPrefix)
    case ToReject => ActionKey(Reject)
  }

  predicate Fitting(entries: seq<Entry>, target: Target) {
    DistinctKeys(entries) && forall i :: 0 <= i < |entries| ==> Fits(entries[i], target)
  }

  /** The keys may come in any order, and any other keys with them. */
  predicate Sanitised(entries: seq<Entry>, target: Target) {
    && Fitting(entries, target)
    && (!target.Keep? ==> Carrier(target) in entries)
    && (target.ToPrefix? ==> RedirectPoolIdKey(None) in entries)
  }

  // ---- how far a dictionary has been worked off

  /** The keys that take the policy off its pool, after which switching it no longer affects that pool. */
  function Stops(target: Target): set<Entry> {
    if target.Keep? then {}
    else if target.ToPool? then {Carrier(target)}
    else {ActionKey(ActionOf(target)), Carrier(target)}
  }

  /** The entries so far, and whether the policy was switched on or off before any of the stops. */
  datatype Progress = Progress(seen: set<Entry>, on: bool, off: bool)

  function Advance(p: Progress, e: Entry, target: Target): Progress {
    Progress(p.seen + {e},
             p.on || (e == EnabledKey(true) && p.seen !! Stops(target)),
             p.off || (e == EnabledKey(false) && p.seen !! Stops(target)))
  }

  function ProgressOf(entries: seq<Entry>, target: Target): Progress {
    if entries == [] then Progress({}, false, false)
    else
      var n := |entries| - 1;
      Advance(ProgressOf(entries[..n], target), entries[n], target)
  }

  lemma {:induction false} SeenEntries(entries: seq<Entry>, target: Target)
    ensures forall x :: x in ProgressOf(entries, target).seen <==> x in entries
  {
    if entries != [] {
      var n := |entries| - 1;
      SeenEntries(entries[..n], target);
      assert entries == entries[..n] + [entries[n]];
    }
  }

  // ---- one key

  /** What the update does not change: whether the policy has a rule, the listener's
      default pool, the pools that its other policies use, whether the dictionary
      enables the policy, and the pool that it names.
   */
  datatype Context = Context(rules: bool, default: Pool?, others: set<Pool>, enabling: bool, named: Pool?)

  datatype PolicyState = PolicyState(
    action: Action, pool: Pool?, poolId: Option<string>, url: Option<string>, enabled: bool, listed: set<Pool>)

  /** _conditionally_remove_pool_links for the policy's own pool */
  function Detached(c: Context, s: PolicyState): set<Pool> {
    if c.default != null && s.pool != null && s.pool != c.default && s.pool !in c.others
    then s.listed - {s.pool} else s.listed
  }

  function Retargeted(c: Context, s: PolicyState): PolicyState
    requires c.named != null
  {
    PolicyState(RedirectToPool, c.named, Some(c.named.id), None, s.enabled,
                Detached(c, s) + if c.rules && (s.enabled || c.enabling) then {c.named} else {})
  }

  function Untargeted(c: Context, s: PolicyState, action: Action, url: Option<string>): PolicyState {
    PolicyState(action, null, None, url, s.enabled, Detached(c, s))
  }

  function Switched(c: Context, s: PolicyState, value: bool): PolicyState {
    var listed :=
      if s.action != RedirectToPool || s.pool == null then s.listed
      else if !value then Detached(c, s)
      else if c.rules then s.listed + {s.pool}
      else s.listed;
    s.(enabled := value, listed := listed)
  }

  predicate Knows(c: Context, e: Entry) {
    e.RedirectPoolIdKey? && e.poolId.Some? ==> c.named != null && c.named.id == e.poolId.value
  }

  /** The branches of the loop in L7Policy.update. */
  function Step(c: Context, s: PolicyState, e: Entry): PolicyState
    requires Knows(c, e)
  {
    match e
    case RedirectPoolIdKey(v) => if v.Some? then Retargeted(c, s) else s.(poolId := None)
    case RedirectUrlKey(v) => if v.Some? then Untargeted(c, s, RedirectToUrl, v) else s.(url := None)
    case ActionKey(a) => if a == Reject then Untargeted(c, s, Reject, None) else s.(action := a)
    case PositionKey(_) => s
    case EnabledKey(b) => Switched(c, s, b)
    case OtherKey(_) => s
  }

  predicate KnowsAll(c: Context, entries: seq<Entry>) {
    forall i :: 0 <= i < |entries| ==> Knows(c, entries[i])
  }

  function After(c: Context, s: PolicyState, entries: seq<Entry>): PolicyState
    requires KnowsAll(c, entries)
  {
    if entries == [] then s
    else
      var n := |entries| - 1;
      Step(c, After(c, s, entries[..n]), entries[n])
  }

  // ---- the state of a policy that agrees with the lists

  ghost predicate Agrees(s: PolicyState) {
    && (s.action == RedirectToPool <==> s.pool != null)
    && s.poolId == if s.pool == null then None else Some(s.pool.id)
  }

  predicate IsActive(c: Context, s: PolicyState) {
    s.pool != null && c.rules && s.enabled
  }

  /** The policy agrees with itself, and its pool is listed if it is in use. */
  ghost predicate Fine(c: Context, s: PolicyState) {
    Agrees(s) && (IsActive(c, s) ==> s.pool in s.listed)
  }

  ghost predicate Healthy(c: Context, s: PolicyState) {
    Fine(c, s) && c.others <= s.listed && (c.default != null ==> c.default in s.listed)
  }

  /** Every listed pool is the default one, or used by another policy, or by this one. */
  ghost predicate OnlyUsed(c: Context, s: PolicyState) {
    forall p :: p in s.listed ==> p == c.default || p in c.others || (IsActive(c, s) && p == s.pool)
  }

  /** Nothing but this policy may use the pool. */
  predicate Alone(c: Context, p: Pool?) {
    p != null && p != c.default && p !in c.others
  }

  /** What is known of the entries so far. */
  ghost predicate Tracked(c: Context, p: Progress, target: Target) {
    && (forall x :: x in p.seen ==> Fits(x, target))
    && !(EnabledKey(true) in p.seen && EnabledKey(false) in p.seen)
    && (EnabledKey(true) in p.seen ==> c.enabling)
    && (c.enabling ==> EnabledKey(false) !in p.seen)
    && (p.on ==> EnabledKey(true) in p.seen)
    && (p.off ==> EnabledKey(false) in p.seen)
    && (p.seen !! Stops(target) ==>
          (EnabledKey(true) in p.seen ==> p.on) && (EnabledKey(false) in p.seen ==> p.off))
  }

  /** The next entry has a key of its own. */
  ghost predicate Next(c: Context, p: Progress, e: Entry, target: Target) {
    && Tracked(c, p, target) && Fits(e, target) && Knows(c, e)
    && (forall x :: x in p.seen ==> !SameKey(x, e))
    && (e == EnabledKey(true) ==> c.enabling)
    && (e == EnabledKey(false) ==> !c.enabling)
  }

  predicate Enabled(s: PolicyState, p: Progress) {
    EnabledKey(true) in p.seen || (s.enabled && EnabledKey(false) !in p.seen)
  }

  predicate CarriedOut(p: Progress, target: Target) {
    !target.Keep? && Carrier(target) in p.seen
  }

  function Acted(s0: PolicyState, p: Progress, target: Target): Action
    requires !target.Keep?
  {
    if ActionKey(ActionOf(target)) in p.seen then ActionOf(target) else s0.action
  }

  /** The fields of the policy itself. */
  ghost predicate FieldsAre(c: Context, s0: PolicyState, p: Progress, target: Target, s: PolicyState) {
    && s.enabled == Enabled(s0, p)
    && (match target
        case Keep => s.pool == s0.pool && s.action == s0.action
        case ToPrefix => s.pool == s0.pool && s.action == Acted(s0, p, target)
        case ToPool(id) =>
          if CarriedOut(p, target) then s.pool == c.named && s.action == RedirectToPool && s.poolId == Some(id)
          else s.pool == s0.pool && s.poolId == s0.poolId && (s0.pool != null ==> s.action == RedirectToPool)
        case _ =>
          if CarriedOut(p, target) then s.pool == null && s.action == ActionOf(target) && s.poolId == None
          else s.pool == s0.pool && s.action == Acted(s0, p, target))
    && (target.Keep? || target.ToPrefix? ==> s.poolId == if RedirectPoolIdKey(None) in p.seen then None else s0.poolId)
    && UrlIs(s0, p, target, s)
  }

  ghost predicate UrlIs(s0: PolicyState, p: Progress, target: Target, s: PolicyState) {
    s.url == if CarriedOut(p, target) && target.ToUrl? then Some(target.newUrl)
             else if CarriedOut(p, target) && !target.ToPrefix? then None
             else if RedirectUrlKey(None) in p.seen then None
             else s0.url
  }

  lemma FieldsStep(c: Context, s0: PolicyState, p: Progress, e: Entry, target: Target, s: PolicyState)
    requires Agrees(s0) && Next(c, p, e, target) && FieldsAre(c, s0, p, target, s)
    ensures FieldsAre(c, s0, Advance(p, e, target), target, Step(c, s, e))
  {
    hide Detached;
  }

  /** Whether a listed pool that no one else uses has been listed for the policy's sake: its own first pool. */
  ghost predicate OwnListed(c: Context, s0: PolicyState, p: Progress, target: Target) {
    c.rules &&
    if c.default == null then
      || s0.enabled
      || (if target.ToPool? && c.named == s0.pool
          then EnabledKey(true) in p.seen || (CarriedOut(p, target) && c.enabling) else p.on)
    else match target
      case Keep => Enabled(s0, p)
      case ToPool(_) =>
        if c.named == s0.pool then Enabled(s0, p) || (CarriedOut(p, target) && c.enabling)
        else !CarriedOut(p, target) && Enabled(s0, p)
      case ToPrefix => (s0.enabled && !p.off) || p.on
      case _ => !CarriedOut(p, target) && ((s0.enabled && !p.off) || p.on)
  }

  /** The same for the pool that the dictionary names. */
  ghost predicate NamedListed(c: Context, s0: PolicyState, p: Progress, target: Target) {
    c.rules && CarriedOut(p, target) &&
    (c.enabling || if c.default == null then s0.enabled && !p.off else Enabled(s0, p))
  }

  ghost predicate ListedAre(c: Context, s0: PolicyState, p: Progress, target: Target, s: PolicyState) {
    && (forall x :: x in s0.listed && x != s0.pool ==> x in s.listed)
    && (forall x :: x in s.listed ==> x in s0.listed || x == s0.pool || (target.ToPool? && x == c.named))
    && (s0.pool != null ==> (s0.pool in s.listed <==> !Alone(c, s0.pool) || OwnListed(c, s0, p, target)))
    && (target.ToPool? && c.named != s0.pool ==>
          (c.named in s.listed <==> !Alone(c, c.named) || NamedListed(c, s0, p, target)))
  }

  lemma ListedStep(c: Context, s0: PolicyState, p: Progress, e: Entry, target: Target, s: PolicyState)
    requires Healthy(c, s0) && OnlyUsed(c, s0) && Next(c, p, e, target)
    requires target.ToPool? ==> c.named != null && c.named.id == target.id
    requires FieldsAre(c, s0, p, target, s) && ListedAre(c, s0, p, target, s)
    ensures ListedAre(c, s0, Advance(p, e, target), target, Step(c, s, e))
  {
  }

  lemma TrackedStep(c: Context, p: Progress, e: Entry, target: Target)
    requires Next(c, p, e, target)
    ensures Tracked(c, Advance(p, e, target), target)
  {
  }

  /** A policy that redirects to a pool has the pool listed while it is in use. */
  ghost predicate Covers(c: Context, s: PolicyState) {
    IsActive(c, s) && s.action == RedirectToPool ==> s.pool in s.listed
  }

  lemma CoverStep(c: Context, s0: PolicyState, p: Progress, e: Entry, target: Target, s: PolicyState)
    requires Agrees(s0) && Next(c, p, e, target) && FieldsAre(c, s0, p, target, s) && Covers(c, s)
    ensures Covers(c, Step(c, s, e))
  {
  }

  // ---- whole dictionaries

  /** A dictionary for the target, in its context. */
  ghost predicate IsUpdate(c: Context, entries: seq<Entry>, target: Target) {
    && Fitting(entries, target) && KnowsAll(c, entries)
    && (target.ToPool? ==> c.named != null && c.named.id == target.id)
    && (c.enabling <==> EnabledKey(true) in entries)
  }

  /** Everything that has been tracked after the first n entries. */
  ghost predicate Reached(c: Context, s0: PolicyState, entries: seq<Entry>, n: nat, target: Target)
    requires n <= |entries| && KnowsAll(c, entries)
  {
    var p, s := ProgressOf(entries[..n], target), After(c, s0, entries[..n]);
    && Tracked(c, p, target) && FieldsAre(c, s0, p, target, s) && Covers(c, s)
    && (OnlyUsed(c, s0) ==> ListedAre(c, s0, p, target, s))
  }

  lemma EntryIsNext(c: Context, entries: seq<Entry>, n: nat, target: Target)
    requires IsUpdate(c, entries, target) && n < |entries|
    requires Tracked(c, ProgressOf(entries[..n], target), target)
    ensures Next(c, ProgressOf(entries[..n], target), entries[n], target)
  {
    var p := ProgressOf(entries[..n], target);
    SeenEntries(entries[..n], target);
    forall x | x in p.seen
      ensures !SameKey(x, entries[n])
    {
      var i :| 0 <= i < n && entries[i] == x;
    }
    if entries[n] == EnabledKey(false) && c.enabling {
      var i :| 0 <= i < |entries| && entries[i] == EnabledKey(true);
      assert SameKey(entries[i], entries[n]) && SameKey(entries[n], entries[i]);
    }
  }

  lemma {:induction false} Reaches(c: Context, s0: PolicyState, entries: seq<Entry>, n: nat, target: Target)
    requires Healthy(c, s0) && IsUpdate(c, entries, target) && n <= |entries|
    ensures Reached(c, s0, entries, n, target)
  {
    if n == 0 {
      assert entries[..0] == [];
      Starts(c, s0, target);
    } else {
      Reaches(c, s0, entries, n - 1, target);
      var p, e, s := ProgressOf(entries[..n - 1], target), entries[n - 1], After(c, s0, entries[..n - 1]);
      EntryIsNext(c, entries, n - 1, target);
      assert entries[..n][..n - 1] == entries[..n - 1];
      assert ProgressOf(entries[..n], target) == Advance(p, e, target);
      assert After(c, s0, entries[..n]) == Step(c, s, e);
      hide Next, Tracked, FieldsAre, ListedAre, Covers, OnlyUsed, Advance, Step;
      TrackedStep(c, p, e, target);
      FieldsStep(c, s0, p, e, target, s);
      CoverStep(c, s0, p, e, target, s);
      if OnlyUsed(c, s0) {
        ListedStep(c, s0, p, e, target, s);
      }
    }
  }

  lemma Starts(c: Context, s0: PolicyState, target: Target)
    requires Healthy(c, s0) && (target.ToPool? ==> c.named != null)
    ensures var p := Progress({}, false, false);
            && Tracked(c, p, target) && FieldsAre(c, s0, p, target, s0) && Covers(c, s0)
            && (OnlyUsed(c, s0) ==> ListedAre(c, s0, p, target, s0))
  {
  }

  /** Where the policy ends up, whatever the order of the keys. */
  lemma UpdateReachesTarget(c: Context, s0: PolicyState, entries: seq<Entry>, target: Target)
    requires Healthy(c, s0) && IsUpdate(c, entries, target) && Sanitised(entries, target)
    ensures HasReached(c, s0, entries, target, After(c, s0, entries))
  {
    Reaches(c, s0, entries, |entries|, target);
    SeenEntries(entries, target);
    assert entries[..|entries|] == entries;
  }

  /** The fields of the policy are those that the dictionary asks for. */
  ghost predicate HasReached(c: Context, s0: PolicyState, entries: seq<Entry>, target: Target, s: PolicyState) {
    && (s.enabled <==> EnabledKey(true) in entries || (s0.enabled && EnabledKey(false) !in entries))
    && match target
       case Keep =>
         && s.action == s0.action && s.pool == s0.pool
         && s.url == (if RedirectUrlKey(None) in entries then None else s0.url)
         && s.poolId == if RedirectPoolIdKey(None) in entries then None else s0.poolId
       case ToPool(id) => s.action == RedirectToPool && s.pool == c.named && s.poolId == Some(id) && s.url == None
       case ToUrl(url) => s.action == RedirectToUrl && s.pool == null && s.poolId == None && s.url == Some(url)
       case ToPrefix =>
         && s.action == RedirectPrefix && s.pool == s0.pool && s.poolId == None
         && s.url == if RedirectUrlKey(None) in entries then None else s0.url
       case ToReject => s.action == Reject && s.pool == null && s.poolId == None && s.url == None
  }

  /** The two kinds of update that take the policy off its pool without saying so to the pool. */
  predicate Forgets(entries: seq<Entry>, target: Target) {
    target.ToPrefix? || (target.Keep? && RedirectPoolIdKey(None) in entries)
  }

  /** Whatever the order of the keys, the update leaves the policy in agreement with
      its pool and the lists exactly if it does not forget a pool. */
  lemma UpdateIsFineIff(c: Context, s0: PolicyState, entries: seq<Entry>, target: Target)
    requires Healthy(c, s0) && IsUpdate(c, entries, target) && Sanitised(entries, target)
    ensures Fine(c, After(c, s0, entries)) <==> s0.pool == null || !Forgets(entries, target)
  {
    Reaches(c, s0, entries, |entries|, target);
    SeenEntries(entries, target);
    assert entries[..|entries|] == entries;
  }

  /** The update leaves behind a pool that nobody uses: the policy was, or has been on
      the way, the only one to use it. */
  predicate LeavesUnused(c: Context, s0: PolicyState, entries: seq<Entry>, target: Target) {
    var p := ProgressOf(entries, target);
    c.rules &&
    (|| (Alone(c, s0.pool) && match target
          case Keep => c.default == null && s0.enabled && EnabledKey(false) in entries
          case ToPrefix => s0.enabled && EnabledKey(false) in entries && (c.default == null || !p.off)
          case ToPool(_) =>
            c.default == null &&
            if c.named == s0.pool then s0.enabled && EnabledKey(false) in entries else s0.enabled || p.on
          case _ => c.default == null && (s0.enabled || p.on))
     || (target.ToPool? && c.named != s0.pool && Alone(c, c.named)
         && c.default == null && s0.enabled && EnabledKey(false) in entries && !p.off))
  }

  /** Whatever the order of the keys, a list of used pools holds used pools only after
      the update exactly if it leaves none behind. */
  lemma OnlyUsedAfterIff(c: Context, s0: PolicyState, entries: seq<Entry>, target: Target)
    requires Healthy(c, s0) && OnlyUsed(c, s0) && IsUpdate(c, entries, target) && Sanitised(entries, target)
    ensures OnlyUsed(c, After(c, s0, entries)) <==> !LeavesUnused(c, s0, entries, target)
  {
    Reaches(c, s0, entries, |entries|, target);
    SeenEntries(entries, target);
    assert entries[..|entries|] == entries;
  }

  // ---- updates that fail

  /** Both kinds of forgetful update, on a policy that redirects to a pool. */
  lemma ForgottenPools(c: Context, s0: PolicyState)
    requires Healthy(c, s0) && s0.pool != null && !c.enabling
    ensures !Fine(c, After(c, s0, [RedirectPoolIdKey(None)]))
    ensures !Fine(c, After(c, s0, [ActionKey(RedirectPrefix), RedirectPoolIdKey(None), RedirectUrlKey(None),
                                   OtherKey("redirect_prefix"), OtherKey("redirect_http_code")]))
  {
    var cleared := [RedirectPoolIdKey(None)];
    var moved := [ActionKey(RedirectPrefix), RedirectPoolIdKey(None), RedirectUrlKey(None),
                  OtherKey("redirect_prefix"), OtherKey("redirect_http_code")];
    UpdateIsFineIff(c, s0, cleared, Keep);
    assert moved[0] == Carrier(ToPrefix) && moved[1] == RedirectPoolIdKey(None);
    UpdateIsFineIff(c, s0, moved, ToPrefix);
  }

  lemma {:induction false} OnAtOnce(entries: seq<Entry>, target: Target)
    requires entries != [] && entries[0] == EnabledKey(true)
    ensures ProgressOf(entries, target).on
  {
    var n := |entries| - 1;
    if n > 0 {
      OnAtOnce(entries[..n], target);
    } else {
      assert entries[..0] == [];
    }
  }

  lemma {:induction false} OnIsSeen(entries: seq<Entry>, target: Target)
    ensures ProgressOf(entries, target).on ==> EnabledKey(true) in entries
  {
    if entries != [] {
      var n := |entries| - 1;
      OnIsSeen(entries[..n], target);
      assert entries == entries[..n] + [entries[n]];
    }
  }

  lemma TooLateForOn(entries: seq<Entry>, target: Target)
    requires !target.Keep? && EnabledKey(true) !in entries && Carrier(target) in entries
    ensures !ProgressOf(entries + [EnabledKey(true)], target).on
  {
    SeenEntries(entries, target);
    OnIsSeen(entries, target);
    assert (entries + [EnabledKey(true)])[..|entries|] == entries;
    assert Carrier(target) in Stops(target);
  }

  /** Without a default pool the order of the keys matters: switched on first, a policy
      links its pool and leaves it behind when it turns to a URL; the other way
      round it does not. */
  lemma KeyOrderMatters(c: Context, s0: PolicyState, url: string)
    requires Healthy(c, s0) && OnlyUsed(c, s0) && Alone(c, s0.pool)
    requires c.default == null && c.rules && c.enabling && !s0.enabled
    ensures var keys := [ActionKey(RedirectToUrl), RedirectPoolIdKey(None), RedirectUrlKey(Some(url))];
            !OnlyUsed(c, After(c, s0, [EnabledKey(true)] + keys)) && OnlyUsed(c, After(c, s0, keys + [EnabledKey(true)]))
  {
    var keys := [ActionKey(RedirectToUrl), RedirectPoolIdKey(None), RedirectUrlKey(Some(url))];
    var first, last := [EnabledKey(true)] + keys, keys + [EnabledKey(true)];
    var target := ToUrl(url);
    assert first[0] == EnabledKey(true) && first[3] == Carrier(target);
    assert last[3] == EnabledKey(true) && last[2] == Carrier(target) && keys[2] == Carrier(target);
    OnAtOnce(first, target);
    TooLateForOn(keys, target);
    OnlyUsedAfterIff(c, s0, first, target);
    OnlyUsedAfterIff(c, s0, last, target);
  }
}
