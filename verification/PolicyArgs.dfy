/** sanitize_l7policy_api_args makes the action of an L7 policy and its redirect
    targets consistent; L7PolicyRepository stores what it returns.
 */
module PolicyArgs {
  import opened Wrappers

  datatype Val = Null | Text(s: string) | Number(n: int) | PoolObject(id: string)

  /** The dictionary: an entry that is None is a missing key. */
  datatype Args = Args(
    action: Option<Val>,
    redirectUrl: Option<Val>, redirectPoolId: Option<Val>, redirectPool: Option<Val>,
    redirectPrefix: Option<Val>, redirectHttpCode: Option<Val>,
    others: map<string, Val>)

  datatype Error = InvalidArgs | InvalidAction | InvalidURL | NotFound

  datatype Result<T> = Ok(value: T) | Err(error: Error)

  const REJECT := Text("REJECT")
  const TO_URL := Text("REDIRECT_TO_URL")
  const TO_POOL := Text("REDIRECT_TO_POOL")
  const PREFIX := Text("REDIRECT_PREFIX")

  predicate Truthy(v: Val) {
    match v
    case Null => false
    case Text(s) => s != ""
    case Number(n) => n != 0
    case PoolObject(_) => true
  }

  /** The test of dict.get(key) */
  predicate Has(entry: Option<Val>) { entry.Some? && Truthy(entry.value) }

  predicate HasPool(a: Args) { Has(a.redirectPoolId) || Has(a.redirectPool) }

  predicate IsEmpty(a: Args) { a == Args(None, None, None, None, None, None, map[]) }

  // What the sanitiser computes, branch by branch.

  function ByAction(a: Args): Result<Args> {
    if a.action.None? then Ok(a)
    else if a.action == Some(REJECT) then
      Ok(a.(redirectUrl := Some(Null), redirectPoolId := Some(Null), redirectPool := None))
    else if a.action == Some(TO_URL) then
      if !Has(a.redirectUrl) then Err(InvalidArgs) else Ok(a.(redirectPoolId := Some(Null), redirectPool := None))
    else if a.action == Some(TO_POOL) then
      if !HasPool(a) then Err(InvalidArgs) else Ok(a.(redirectUrl := Some(Null)))
    else if a.action == Some(PREFIX) then
      if !Has(a.redirectPrefix) then Err(InvalidArgs) else Ok(a)
    else Err(InvalidAction)
  }

  predicate Clash(a: Args) { HasPool(a) && (Has(a.redirectUrl) || Has(a.redirectPrefix)) }

  function ByPoolId(a: Args): Args {
    if !Has(a.redirectPoolId) then a
    else a.(action := Some(TO_POOL), redirectUrl := Some(Null), redirectPrefix := Some(Null),
            redirectHttpCode := Some(Null), redirectPool := None)
  }

  function ByPool(a: Args): Args {
    if !Has(a.redirectPool) then a
    else a.(action := Some(TO_POOL), redirectUrl := Some(Null), redirectPrefix := Some(Null),
            redirectHttpCode := Some(Null), redirectPoolId := None)
  }

  function WithCode(a: Args): Args {
    if Has(a.redirectHttpCode) then a else a.(redirectHttpCode := Some(Number(302)))
  }

  function ByUrl(a: Args): Args {
    if !Has(a.redirectUrl) then a
    else WithCode(a.(action := Some(TO_URL), redirectPoolId := Some(Null), redirectPrefix := Some(Null),
                    redirectPool := None))
  }

  function ByPrefix(a: Args): Args {
    if !Has(a.redirectPrefix) then a
    else WithCode(a.(action := Some(PREFIX), redirectPoolId := Some(Null), redirectUrl := Some(Null),
                    redirectPool := None))
  }

  function Sanitized(args: Args, create: bool, isUrl: Val -> bool): Result<Args> {
    var first := ByAction(args);
    if first.Err? then first
    else if Clash(first.value) then Err(InvalidArgs)
    else
      var a := ByPool(ByPoolId(first.value));
      if Has(a.redirectUrl) && !isUrl(a.redirectUrl.value) then Err(InvalidURL)
      else
        var b := ByUrl(a);
        if Has(b.redirectPrefix) && !isUrl(b.redirectPrefix.value) then Err(InvalidURL)
        else
          var c := ByPrefix(b);
          if create && c.action.None? then Err(InvalidAction)
          else if IsEmpty(c) then Err(InvalidArgs)
          else Ok(c)
  }

  /** The requests that are accepted: a known action with the target it needs, no second target that
      the action does not drop, and a URL where one is read. */
  predicate Acceptable(a: Args, create: bool, isUrl: Val -> bool) {
    if a.action.None? then
      && !(HasPool(a) && (Has(a.redirectUrl) || Has(a.redirectPrefix)))
      && (if Has(a.redirectUrl) then isUrl(a.redirectUrl.value) else Has(a.redirectPrefix) ==> isUrl(a.redirectPrefix.value))
      && (create ==> HasPool(a) || Has(a.redirectUrl) || Has(a.redirectPrefix))
      && !IsEmpty(a)
    else if a.action.value == Text("REJECT") then Has(a.redirectPrefix) ==> isUrl(a.redirectPrefix.value)
    else if a.action.value == Text("REDIRECT_TO_URL") then Has(a.redirectUrl) && isUrl(a.redirectUrl.value)
    else if a.action.value == Text("REDIRECT_TO_POOL") then HasPool(a) && !Has(a.redirectPrefix)
    else
      && a.action.value == Text("REDIRECT_PREFIX") && Has(a.redirectPrefix) && !HasPool(a)
      && isUrl(if Has(a.redirectUrl) then a.redirectUrl.value else a.redirectPrefix.value)
  }

  lemma AcceptedIff(args: Args, create: bool, isUrl: Val -> bool)
    ensures Sanitized(args, create, isUrl).Ok? <==> Acceptable(args, create, isUrl)
  {
  }

  /** The URL of a request is followed. */
  predicate GoesToUrl(args: Args) {
    Has(args.redirectUrl) && args.action != Some(Text("REJECT")) && args.action != Some(Text("REDIRECT_TO_POOL"))
  }

  /** What was asked for, else 302. */
  function CodeFor(args: Args): Val {
    if args.redirectHttpCode.Some? && Truthy(args.redirectHttpCode.value) then args.redirectHttpCode.value else Number(302)
  }

  /** The target that is left is the one asked for, with its value. */
  ghost predicate KeepsTarget(args: Args, a: Args) {
    if GoesToUrl(args) then
      && a.action == Some(Text("REDIRECT_TO_URL")) && a.redirectUrl == args.redirectUrl
      && !HasPool(a) && !Has(a.redirectPrefix) && a.redirectHttpCode == Some(CodeFor(args))
    else if Has(args.redirectPrefix) then
      && a.action == Some(Text("REDIRECT_PREFIX")) && a.redirectPrefix == args.redirectPrefix
      && !HasPool(a) && !Has(a.redirectUrl) && a.redirectHttpCode == Some(CodeFor(args))
    else if args.action != Some(Text("REJECT")) && HasPool(args) then
      && a.action == Some(Text("REDIRECT_TO_POOL")) && !Has(a.redirectUrl) && !Has(a.redirectPrefix)
      && (if Has(args.redirectPoolId) then a.redirectPoolId == args.redirectPoolId && a.redirectPool.None?
          else a.redirectPool == args.redirectPool && a.redirectPoolId.None?)
      && a.redirectHttpCode == Some(Null)
    else if args.action.None? then a == args
    else
      && a.action == Some(Text("REJECT")) && !SetsTarget(a)
      && a.redirectPrefix == args.redirectPrefix && a.redirectHttpCode == args.redirectHttpCode
  }

  lemma SanitizedKeepsTarget(args: Args, create: bool, isUrl: Val -> bool)
    requires Sanitized(args, create, isUrl).Ok?
    ensures KeepsTarget(args, Sanitized(args, create, isUrl).value)
  {
    AcceptedIff(args, create, isUrl);
  }

  class L7PolicyDict {
    var args: Args

    constructor (args: Args)
      ensures this.args == args
    {
      this.args := args;
    }

    method Sanitize(create: bool, isUrl: Val -> bool) returns (r: Result<Args>)
      modifies this
      ensures r == Sanitized(old(args), create, isUrl)
      ensures r.Ok? <==> Acceptable(old(args), create, isUrl)
      ensures r.Ok? ==> KeepsTarget(old(args), args)
      ensures r.Ok? ==> args == r.value
    {
      AcceptedIff(args, create, isUrl);
      if Acceptable(args, create, isUrl) {
        SanitizedKeepsTarget(args, create, isUrl);
      }
      hide Acceptable, KeepsTarget;
      if args.action.Some? {
        if args.action == Some(REJECT) {
          args := args.(redirectUrl := Some(Null));
          args := args.(redirectPoolId := Some(Null));
          args := args.(redirectPool := None);
        } else if args.action == Some(TO_URL) {
          if !Has(args.redirectUrl) {
            return Err(InvalidArgs);
          }
          args := args.(redirectPoolId := Some(Null));
          args := args.(redirectPool := None);
        } else if args.action == Some(TO_POOL) {
          if !Has(args.redirectPoolId) && !Has(args.redirectPool) {
            return Err(InvalidArgs);
          }
          args := args.(redirectUrl := Some(Null));
        } else if args.action == Some(PREFIX) {
          if !Has(args.redirectPrefix) {
            return Err(InvalidArgs);
          }
        } else {
          return Err(InvalidAction);
        }
      }
      if (Has(args.redirectPoolId) || Has(args.redirectPool))
         && (Has(args.redirectUrl) || Has(args.redirectPrefix)) {
        return Err(InvalidArgs);
      }
      if Has(args.redirectPoolId) {
        args := args.(action := Some(TO_POOL));
        args := args.(redirectUrl := Some(Null));
        args := args.(redirectPool := None);
        args := args.(redirectPrefix := Some(Null));
        args := args.(redirectHttpCode := Some(Null));
      }
      if Has(args.redirectPool) {
        args := args.(action := Some(TO_POOL));
        args := args.(redirectUrl := Some(Null));
        args := args.(redirectPoolId := None);
        args := args.(redirectPrefix := Some(Null));
        args := args.(redirectHttpCode := Some(Null));
      }
      if Has(args.redirectUrl) {
        if !isUrl(args.redirectUrl.value) {
          return Err(InvalidURL);
        }
        args := args.(action := Some(TO_URL));
        args := args.(redirectPoolId := Some(Null));
        args := args.(redirectPrefix := Some(Null));
        args := args.(redirectPool := None);
        if !Has(args.redirectHttpCode) {
          args := args.(redirectHttpCode := Some(Number(302)));
        }
      }
      if Has(args.redirectPrefix) {
        if !isUrl(args.redirectPrefix.value) {
          return Err(InvalidURL);
        }
        args := args.(action := Some(PREFIX));
        args := args.(redirectPoolId := Some(Null));
        args := args.(redirectUrl := Some(Null));
        args := args.(redirectPool := None);
        if !Has(args.redirectHttpCode) {
          args := args.(redirectHttpCode := Some(Number(302)));
        }
      }
      if create && args.action.None? {
        return Err(InvalidAction);
      }
      if IsEmpty(args) {
        return Err(InvalidArgs);
      }
      r := Ok(args);
    }
  }

  // Agreement of action and target.

  /** The action that a set of targets calls for; none when no target is set. */
  function Called(pool: bool, url: bool, prefix: bool): (action: Val)
    requires !(pool && url) && !(pool && prefix) && !(url && prefix)
  {
    if pool then TO_POOL else if url then TO_URL else if prefix then PREFIX else REJECT
  }

  predicate AtMostOne(pool: bool, url: bool, prefix: bool) {
    !(pool && url) && !(pool && prefix) && !(url && prefix)
  }

  predicate SetsTarget(a: Args) { HasPool(a) || Has(a.redirectUrl) || Has(a.redirectPrefix) }

  ghost predicate Consistent(a: Args) {
    var pool, url, prefix := HasPool(a), Has(a.redirectUrl), Has(a.redirectPrefix);
    && AtMostOne(pool, url, prefix)
    && (SetsTarget(a) ==> a.action.Some?)
    && (a.action.Some? ==> a.action == Some(Called(pool, url, prefix)))
    && !(Has(a.redirectPoolId) && Has(a.redirectPool))
    && (url || prefix ==> Has(a.redirectHttpCode))
  }

  /** On success at most one target is set, the action names it, and nothing else was touched. */
  lemma SanitizedIsConsistent(args: Args, create: bool, isUrl: Val -> bool)
    requires Sanitized(args, create, isUrl).Ok?
    ensures var a := Sanitized(args, create, isUrl).value;
            && Consistent(a)
            && (a.action.Some? <==> args.action.Some? || SetsTarget(args))
            && (create ==> a.action.Some?)
            && a.others == args.others
  {
  }

  /** The five shapes in which the sanitiser leaves a dictionary. */
  ghost predicate Settled(a: Args, isUrl: Val -> bool) {
    if SetsTarget(a) then
      Consistent(a)
      && (if HasPool(a) then
            && a.redirectUrl == a.redirectPrefix == a.redirectHttpCode == Some(Null)
            && (if Has(a.redirectPoolId) then a.redirectPool.None? else a.redirectPoolId.None?)
          else
            && a.redirectPoolId == Some(Null) && a.redirectPool.None?
            && (if Has(a.redirectUrl) then a.redirectPrefix == Some(Null) && isUrl(a.redirectUrl.value)
                else a.redirectUrl == Some(Null) && isUrl(a.redirectPrefix.value)))
    else
      a.action.None?
      || (a.action == Some(REJECT)
          && a.redirectUrl == a.redirectPoolId == Some(Null) && a.redirectPool.None?)
  }

  lemma SanitizedIsSettled(args: Args, create: bool, isUrl: Val -> bool)
    requires Sanitized(args, create, isUrl).Ok?
    ensures var a := Sanitized(args, create, isUrl).value;
            Settled(a, isUrl) && !IsEmpty(a) && (create ==> a.action.Some?)
  {
    var a := ByAction(args).value;
    assert !Clash(a);
    if SetsTarget(a) {
      if HasPool(a) {
        assert Sanitized(args, create, isUrl) == Ok(ByPool(ByPoolId(a)));
      }
    }
  }

  lemma SettledIsKept(a: Args, create: bool, isUrl: Val -> bool)
    requires Settled(a, isUrl) && !IsEmpty(a) && (create ==> a.action.Some?)
    ensures Sanitized(a, create, isUrl) == Ok(a)
  {
    assert ByAction(a) == Ok(a);
    if HasPool(a) {
      assert ByPool(ByPoolId(a)) == a;
    }
  }

  /** What was sanitised once is kept as it is. */
  lemma SanitizingTwiceIsSanitizing(args: Args, create: bool, isUrl: Val -> bool)
    requires Sanitized(args, create, isUrl).Ok?
    ensures var a := Sanitized(args, create, isUrl).value;
            Sanitized(a, create, isUrl) == Ok(a)
  {
    hide Sanitized, Settled;
    SanitizedIsSettled(args, create, isUrl);
    SettledIsKept(Sanitized(args, create, isUrl).value, create, isUrl);
  }

  /** The requested action survives except in two cases that the sanitiser settles silently. */
  lemma ActionIsKeptIff(args: Args, create: bool, isUrl: Val -> bool)
    requires Sanitized(args, create, isUrl).Ok? && args.action.Some?
    ensures Sanitized(args, create, isUrl).value.action == args.action
       <==> !(args.action == Some(REJECT) && Has(args.redirectPrefix))
            && !(args.action == Some(PREFIX) && Has(args.redirectUrl))
  {
  }

  // L7PolicyRepository: what of the arguments is stored.

  datatype Row = Row(action: Val, poolId: Val, url: Val, prefix: Val, code: Val)

  /** The value an entry gives to a column, if the key is there. */
  function Column(entry: Option<Val>, was: Val): Val { if entry.Some? then entry.value else was }

  /** Assigning the related pool decides the foreign key. */
  function PoolColumn(a: Args, was: Val): Val {
    if a.redirectPool.Some? then
      if a.redirectPool.value.PoolObject? then Text(a.redirectPool.value.id) else Null
    else Column(a.redirectPoolId, was)
  }

  function Stored(a: Args, was: Row): Row {
    Row(Column(a.action, was.action), PoolColumn(a, was.poolId), Column(a.redirectUrl, was.url),
        Column(a.redirectPrefix, was.prefix), Column(a.redirectHttpCode, was.code))
  }

  /** _validate_l7policy_pool_data; pools are the pools of the policy's load balancer and project. */
  predicate PoolIsKnown(a: Args, pools: set<string>) {
    a.action == Some(TO_POOL) ==>
      PoolColumn(a, Null).Text? && PoolColumn(a, Null).s in pools
  }

  const NO_ROW := Row(Null, Null, Null, Null, Null)

  /** The action decides which of the other columns are emptied as well. */
  function Emptied(a: Args): Args {
    if a.action == Some(REJECT) then
      a.(redirectUrl := Some(Null), redirectPoolId := Some(Null), redirectPrefix := Some(Null),
         redirectHttpCode := Some(Null))
    else if a.action == Some(TO_URL) then a.(redirectPoolId := Some(Null), redirectPrefix := Some(Null))
    else if a.action == Some(TO_POOL) then
      a.(redirectUrl := Some(Null), redirectPrefix := Some(Null), redirectHttpCode := Some(Null))
    else if a.action == Some(PREFIX) then a.(redirectUrl := Some(Null), redirectPoolId := Some(Null))
    else a
  }

  function Created(args: Args, pools: set<string>, isUrl: Val -> bool): Result<Row> {
    var a := Sanitized(args, true, isUrl);
    if a.Err? then Err(a.error)
    else if !PoolIsKnown(a.value, pools) then Err(NotFound)
    else Ok(Stored(a.value, NO_ROW))
  }

  function Updated(row: Row, args: Args, pools: set<string>, isUrl: Val -> bool): Result<Row> {
    var a := Sanitized(args, false, isUrl);
    if a.Err? then Err(a.error)
    else if !PoolIsKnown(a.value, pools) then Err(NotFound)
    else Ok(Stored(Emptied(a.value), row))
  }

  /** The row that a request leads to which says where the policy leads. */
  ghost predicate RowSays(row: Row, args: Args) {
    if GoesToUrl(args) then
      row == Row(Text("REDIRECT_TO_URL"), Null, args.redirectUrl.value, Null, CodeFor(args))
    else if Has(args.redirectPrefix) then
      row == Row(Text("REDIRECT_PREFIX"), Null, Null, args.redirectPrefix.value, CodeFor(args))
    else if args.action != Some(Text("REJECT")) && HasPool(args) then
      && (Has(args.redirectPoolId) || args.redirectPool.value.PoolObject?)
      && row == Row(Text("REDIRECT_TO_POOL"),
                    if Has(args.redirectPoolId) then args.redirectPoolId.value else Text(args.redirectPool.value.id),
                    Null, Null, Null)
    else row.action == Text("REJECT") && row.poolId == row.url == Null
  }

  /** The row after a request that does not say so: columns with an entry change. */
  ghost predicate RowFollows(was: Row, row: Row, args: Args) {
    && row.action == was.action
    && (args.redirectUrl.None? ==> row.url == was.url) && (args.redirectUrl.Some? ==> row.url == args.redirectUrl.value)
    && (args.redirectPrefix.None? ==> row.prefix == was.prefix)
    && (args.redirectPrefix.Some? ==> row.prefix == args.redirectPrefix.value)
    && (args.redirectHttpCode.None? ==> row.code == was.code)
    && (args.redirectHttpCode.Some? ==> row.code == args.redirectHttpCode.value)
    && (args.redirectPool.None? && args.redirectPoolId.None? ==> row.poolId == was.poolId)
    && (args.redirectPool.None? && args.redirectPoolId.Some? ==> row.poolId == args.redirectPoolId.value)
    && (args.redirectPool.Some? ==> row.poolId == Null)
  }

  predicate GoesToPool(args: Args) {
    HasPool(args) && args.action != Some(Text("REJECT")) && !GoesToUrl(args) && !Has(args.redirectPrefix)
  }

  predicate NamesKnownPool(args: Args, pools: set<string>) {
    if Has(args.redirectPoolId) then args.redirectPoolId.value.Text? && args.redirectPoolId.value.s in pools
    else Has(args.redirectPool) && args.redirectPool.value.PoolObject? && args.redirectPool.value.id in pools
  }

  /** Both are refused for their arguments, or for a pool that is not there, and for nothing else. */
  lemma StoredIff(row: Row, args: Args, looked: Option<string>, pools: set<string>, isUrl: Val -> bool)
    ensures Created(WithPool(args, looked), pools, isUrl).Ok? <==>
            Acceptable(args, true, isUrl) && (GoesToPool(args) ==> NamesKnownPool(args, pools))
    ensures Updated(row, args, pools, isUrl).Ok? <==>
            Acceptable(args, false, isUrl) && (GoesToPool(args) ==> NamesKnownPool(args, pools))
    ensures Acceptable(args, true, isUrl) && !Created(WithPool(args, looked), pools, isUrl).Ok? ==>
              Created(WithPool(args, looked), pools, isUrl) == Err(NotFound)
    ensures Acceptable(args, false, isUrl) && !Updated(row, args, pools, isUrl).Ok? ==>
              Updated(row, args, pools, isUrl) == Err(NotFound)
  {
    var given := WithPool(args, looked);
    AcceptedIff(args, false, isUrl);
    AcceptedIff(given, true, isUrl);
    assert Acceptable(given, true, isUrl) <==> Acceptable(args, true, isUrl);
    if Acceptable(args, false, isUrl) {
      SanitizedKeepsTarget(args, false, isUrl);
    }
    if Acceptable(args, true, isUrl) {
      SanitizedKeepsTarget(given, true, isUrl);
    }
    hide Sanitized, Acceptable;
  }

  lemma CreatedSays(args: Args, looked: Option<string>, pools: set<string>, isUrl: Val -> bool)
    requires Created(WithPool(args, looked), pools, isUrl).Ok?
    ensures var row := Created(WithPool(args, looked), pools, isUrl).value;
            RowSays(row, args) && (row.action == TO_POOL ==> row.poolId.Text? && row.poolId.s in pools)
  {
    SanitizedKeepsTarget(WithPool(args, looked), true, isUrl);
    SanitizedIsSettled(WithPool(args, looked), true, isUrl);
    hide Sanitized;
  }

  lemma UpdatedSays(row: Row, args: Args, pools: set<string>, isUrl: Val -> bool)
    requires Updated(row, args, pools, isUrl).Ok?
    ensures var next := Updated(row, args, pools, isUrl).value;
            && (Decides(args) ==>
                  && RowSays(next, args) && (next.action == REJECT ==> next.prefix == next.code == Null)
                  && (next.action == TO_POOL ==> next.poolId.Text? && next.poolId.s in pools))
            && (!Decides(args) ==> RowFollows(row, next, args))
  {
    SanitizedKeepsTarget(args, false, isUrl);
    SanitizedIsSettled(args, false, isUrl);
    hide Sanitized;
  }

  class L7PolicyRow {
    var row: Row

    constructor (row: Row)
      ensures this.row == row
    {
      this.row := row;
    }

    /** update, its position aside */
    method Update(kwargs: L7PolicyDict, listener: Val, pools: set<string>, isUrl: Val -> bool) returns (r: Result<Row>)
      modifies this, kwargs
      ensures r == Updated(old(row), WithListener(old(kwargs.args), listener), pools, isUrl)
      ensures row == if r.Ok? then r.value else old(row)
      ensures r.Ok? <==> Acceptable(WithListener(old(kwargs.args), listener), false, isUrl)
                         && (GoesToPool(old(kwargs.args)) ==> NamesKnownPool(old(kwargs.args), pools))
      ensures r.Ok? ==> if Decides(old(kwargs.args)) then RowSays(row, old(kwargs.args))
                        else RowFollows(old(row), row, old(kwargs.args))
    {
      ghost var given := WithListener(kwargs.args, listener);
      StoredIff(row, given, None, pools, isUrl);
      if Updated(row, given, pools, isUrl).Ok? {
        UpdatedSays(row, given, pools, isUrl);
      }
      hide Acceptable, Sanitized, KeepsTarget;
      kwargs.args := kwargs.args.(others := kwargs.args.others["listener_id" := listener]);
      var sanitized := kwargs.Sanitize(false, isUrl);
      if sanitized.Err? {
        return Err(sanitized.error);
      }
      if !PoolIsKnown(sanitized.value, pools) {
        return Err(NotFound);
      }
      if Has(kwargs.args.action) {
        if kwargs.args.action == Some(REJECT) {
          kwargs.args := kwargs.args.(redirectUrl := Some(Null));
          kwargs.args := kwargs.args.(redirectPoolId := Some(Null));
          kwargs.args := kwargs.args.(redirectPrefix := Some(Null));
          kwargs.args := kwargs.args.(redirectHttpCode := Some(Null));
        } else if kwargs.args.action == Some(TO_URL) {
          kwargs.args := kwargs.args.(redirectPoolId := Some(Null));
          kwargs.args := kwargs.args.(redirectPrefix := Some(Null));
        } else if kwargs.args.action == Some(TO_POOL) {
          kwargs.args := kwargs.args.(redirectUrl := Some(Null));
          kwargs.args := kwargs.args.(redirectPrefix := Some(Null));
          kwargs.args := kwargs.args.(redirectHttpCode := Some(Null));
        } else if kwargs.args.action == Some(PREFIX) {
          kwargs.args := kwargs.args.(redirectUrl := Some(Null));
          kwargs.args := kwargs.args.(redirectPoolId := Some(Null));
        }
      }
      row := Stored(kwargs.args, row);
      r := Ok(row);
    }
  }

  /** create, its position aside; looked is the pool that redirect_pool_id names, if there is one */
  method Create(kwargs: L7PolicyDict, looked: Option<string>, pools: set<string>, isUrl: Val -> bool)
    returns (r: Result<Row>)
    modifies kwargs
    ensures r == Created(WithPool(old(kwargs.args), looked), pools, isUrl)
    ensures r.Ok? <==> Acceptable(old(kwargs.args), true, isUrl)
                       && (GoesToPool(old(kwargs.args)) ==> NamesKnownPool(old(kwargs.args), pools))
    ensures r.Ok? ==> RowSays(r.value, old(kwargs.args))
  {
    StoredIff(NO_ROW, kwargs.args, looked, pools, isUrl);
    if Created(WithPool(kwargs.args, looked), pools, isUrl).Ok? {
      CreatedSays(kwargs.args, looked, pools, isUrl);
    }
    hide Acceptable, RowSays, GoesToPool, NamesKnownPool, Sanitized, KeepsTarget;
    if Has(kwargs.args.redirectPoolId) {
      kwargs.args := kwargs.args.(redirectPool := Some(if looked.Some? then PoolObject(looked.value) else Null));
    }
    var sanitized := kwargs.Sanitize(true, isUrl);
    if sanitized.Err? {
      return Err(sanitized.error);
    }
    if !PoolIsKnown(sanitized.value, pools) {
      return Err(NotFound);
    }
    r := Ok(Stored(sanitized.value, NO_ROW));
  }

  function WithListener(args: Args, listener: Val): Args {
    args.(others := args.others["listener_id" := listener])
  }

  function WithPool(args: Args, looked: Option<string>): Args {
    if !Has(args.redirectPoolId) then args
    else args.(redirectPool := Some(if looked.Some? then PoolObject(looked.value) else Null))
  }

  /** Exactly the target that the stored action names is set. */
  ghost predicate Agrees(row: Row) {
    var pool, url, prefix := Truthy(row.poolId), Truthy(row.url), Truthy(row.prefix);
    AtMostOne(pool, url, prefix) && row.action == Called(pool, url, prefix)
  }

  /** The update itself says where the policy leads. */
  predicate Decides(args: Args) { args.action.Some? || SetsTarget(args) }

  /** The update empties the target that the stored action relies on. */
  predicate EmptiesTarget(args: Args, row: Row) {
    if row.action == TO_POOL then args.redirectPoolId.Some? || args.redirectPool.Some?
    else if row.action == TO_URL then args.redirectUrl.Some?
    else row.action == PREFIX && args.redirectPrefix.Some?
  }

  lemma CreatedAgrees(args: Args, looked: Option<string>, pools: set<string>, isUrl: Val -> bool)
    requires "" !in pools
    requires Created(WithPool(args, looked), pools, isUrl).Ok?
    ensures Agrees(Created(WithPool(args, looked), pools, isUrl).value)
  {
    hide Sanitized;
    SanitizedIsSettled(WithPool(args, looked), true, isUrl);
  }

  /** An update breaks the agreement exactly when it decides nothing and empties the stored target. */
  lemma UpdateKeepsAgreementIff(row: Row, args: Args, pools: set<string>, isUrl: Val -> bool)
    requires "" !in pools
    requires Agrees(row) && Updated(row, args, pools, isUrl).Ok?
    ensures Agrees(Updated(row, args, pools, isUrl).value) <==> Decides(args) || !EmptiesTarget(args, row)
  {
    SanitizedIsSettled(args, false, isUrl);
    SanitizedIsConsistent(args, false, isUrl);
    if !Decides(args) {
      assert Sanitized(args, false, isUrl) == Ok(args);
    }
    hide Sanitized;
  }

  ghost predicate IsRun(rows: seq<Row>, updates: seq<Args>, pools: set<string>, isUrl: Val -> bool) {
    && |rows| == |updates| + 1
    && forall i :: 0 <= i < |updates| ==>
         && (Decides(updates[i]) || !EmptiesTarget(updates[i], rows[i]))
         && rows[i + 1] == match Updated(rows[i], updates[i], pools, isUrl)
                           case Ok(row) => row
                           case Err(_) => rows[i]
  }

  lemma {:induction false} RunsAgree(rows: seq<Row>, updates: seq<Args>, pools: set<string>, isUrl: Val -> bool, n: nat)
    requires "" !in pools
    requires IsRun(rows, updates, pools, isUrl) && Agrees(rows[0]) && n < |rows|
    ensures Agrees(rows[n])
  {
    hide Updated, Agrees, Decides, EmptiesTarget;
    if n > 0 {
      RunsAgree(rows, updates, pools, isUrl, n - 1);
      if Updated(rows[n - 1], updates[n - 1], pools, isUrl).Ok? {
        UpdateKeepsAgreementIff(rows[n - 1], updates[n - 1], pools, isUrl);
      }
    }
  }
}
