# Octavia: a Dafny model of its intricate parts

Octavia is the load balancing service of OpenStack. This project models the places where
clever or concurrent code has to agree with a simple specification, and proves that
agreement for all inputs, all runs or all reachable states:

- `ObjectGraph.dfy`, `FindInGraph.dfy`, `ToDict.dfy` - the conversion of a cyclic graph of ORM objects
  into data model objects with one shared dictionary, the depth-first search with one shared list of
  visited keys, and the unrolling of a cyclic graph into nested dictionaries.
- `PoolObjects.dfy`, `PolicySteps.dfy`, `PoolLinks.dfy`, `PolicyRuns.dfy` - `listener.pools` and
  `pool.listeners`, patched in place by updates and deletions, against the properties that derive them
  from default pools and L7 policies. `PolicySteps` gives `L7Policy.update` as steps on values,
  `PoolLinks` proves the code on the heap against them, `PolicyRuns` composes the operations.
- `Failover.dfy` - health managers, API workers and finishing failovers racing on provisioning
  statuses, the `busy` flag and the failover threshold.
- `Pagination.dfy` - the marker filter of a page, and walks along next links through a table that changes.
- `Crc32c.dfy`, `CrcPolynomial.dfy`, `SctpPacket.dfy` - the table-driven CRC32c as division of polynomials
  over GF(2) (section 6.8 and Appendix A of RFC 9260), and what the checksum of an SCTP packet detects.
- `JoinFold.dfy`, `PolicyOrder.dfy`, `Quotas.dfy`, `Statistics.dfy` - folding the rows of a join, positions
  of L7 policies, quota counters, and listener statistics.
- `PolicyArgs.dfy` - the sanitiser of L7 policy arguments and the rows stored from its result.
- `Text.dfy`, `PemBlocks.dfy`, `ScalarList.dfy` - splitting and joining of text, PEM certificates, and the
  list column.
- `Wrappers.dfy`, `Sequences.dfy` - optional values and lists, shared by the others.

Code that changes state is modelled by methods on objects, arrays and tables held in fields; each
method is specified by what it does to the whole state, and the lemmas are about those
specifications. `dafny verify dfyconfig.toml` checks the project.

## How the source is read

- A database transaction takes row locks, so it is one atomic step that commits or leaves the tables
  alone. Tables are maps. What other workers do between two transactions is arbitrary, within the
  steps the protocol allows. The end of a failover, whose code lies in the controller worker, is one
  step in which the owner sets the load balancer to ACTIVE or ERROR.
- `to_data_model` and `_find_in_graph` are proved for graphs whose unique keys are distinct and whose
  objects all have keys where the code needs them; an object that cannot be converted gives the error
  outcome. The ORM side is only read, so it is a value; the copies are objects on the heap.
- Pools, listeners and policies compare by their dictionaries in the program. Their ids are distinct, so
  the model compares object identities.
- `redirect_url` validation, configuration values, the clock, and the answers of the database to a query
  are parameters, or values constrained by a predicate.

## What the proofs found

Where the code does not have a property one would expect of it, a lemma gives the exact condition.

- A change of up to four neighbouring bytes that straddles the edge of the SCTP checksum field can leave
  the packet consistent; for INIT and ABORT packets there is such a change for every packet
  (`EdgeBurstsGoUnnoticed`). Changes that do not straddle the edge are always detected
  (`ClearBurstIsDetected`), and `UndetectedIffSilent` tells exactly which changes are not.
- `L7Policy.update` forgets the policy's pool in two kinds of update: a redirect to a prefix, and
  `redirect_pool_id: None` without an action. `UpdatePolicy` shows that these are the only ones, over all
  sanitised dictionaries in any key order; `ForgottenPools` gives both inputs.
- An update can leave a pool in `listener.pools` that nobody uses any more. `LeavesUnused` says exactly
  when, `OnlyUsedAfterIff` proves it: mostly when the listener has no default pool, and then also
  depending on the order of the keys (`KeyOrderMatters`).
- A pool does not learn of policies that are moved to it, so deleting it leaves them pointing at it.
  `DeletePool` keeps the data model valid if and only if the pool knew of all its policies;
  `DeleteNewTarget` gives the run that fails.
- The data model's `_get_unique_key` does not know AdditionalVip (data_models.py:115-137), so a search that
  comes to the additional VIPs of a load balancer before its goal fails with NotImplementedError.
  `FindFrom` shows that a search for a key that is not there fails in this way if and only if such an object
  is reachable.
- Pagination: a next link loses `sort_dir` (`NextLinkKeepsOrderIff`) and all filters
  (`NextLinkKeepsFiltersIff`); the next link of an unlimited page
  carries `limit=None`, which is refused (`NextLinkKeepsLimitIff`); a limit below one switches the
  configured maximum off, an infinite maximum fails when a request has no limit, and a negative maximum
  yields a negative limit although the option's help text says it means no limit (`LimitIsCappedIff`); a
  previous link returns the first rows of the table (`ReversePageIsPreviousIffFewRows`).
- `sanitize_l7policy_api_args` turns a REJECT that comes with a prefix into a prefix redirect, and a
  REDIRECT_PREFIX that comes with a URL into a URL redirect (`ActionIsKeptIff`). An update that gives no
  action but empties the stored target breaks the agreement of action and target
  (`UpdateKeepsAgreementIff`).
- `ScalarListType` loses the list of one empty string; with a separator that overlaps itself, which only a
  custom separator of several characters can, other lists are lost as well (`ListsComeBackIffUnbordered`).

## Model

| member | source | states |
|---|---|---|
| Crc32c.TableIsStepped | octavia/cmd/health_checker.py:27-92 | each of the 256 table entries is its index put through eight shift/xor steps with the reflected CRC32c polynomial |
| Crc32c.Step8IsLinear | octavia/cmd/health_checker.py:96 | eight steps distribute over xor, so a register can be advanced in two parts |
| Crc32c.Step8IsInjective | octavia/cmd/health_checker.py:96 | two registers never meet after eight steps |
| Crc32c.TableRoundIsAbsorb | octavia/cmd/health_checker.py:95-96 | one round with the table equals xor of the byte into the register followed by eight single steps |
| Crc32c.Crc32c | octavia/cmd/health_checker.py:94-98 | for every byte string the loop computes the bit-by-bit CRC: all-ones start, each byte absorbed in eight steps, complement, byte swap |
| Crc32c.CheckValue | octavia/cmd/health_checker.py:94-98 | the digits 1 to 9 have the published check value of CRC-32C, with its bytes swapped |
| CrcPolynomial.GeneratorBits | octavia/cmd/health_checker.py:60 | the constant behind the table holds, bit-reflected, exactly the terms of the CRC32c generator below x^32 |
| CrcPolynomial.RemainderIsUnique | octavia/cmd/health_checker.py:94-98 | division by the generator over GF(2) has one remainder of degree below 32 |
| CrcPolynomial.StepIsReduction | octavia/cmd/health_checker.py:96 | one step multiplies the register's polynomial by x and reduces it by the generator exactly when the top term overflows |
| CrcPolynomial.BitsLeaveRemainder | octavia/cmd/health_checker.py:94-96 | after any bits the register and the quotient collected on the way divide the message polynomial |
| CrcPolynomial.AbsorbFeedsBits | octavia/cmd/health_checker.py:95-96 | absorbing a byte equals feeding its eight bits, lowest first, one at a time |
| CrcPolynomial.CrcIsTheRemainder | octavia/cmd/health_checker.py:94-98 | for every message, a polynomial is the remainder of its division by the generator if and only if it is the register's |
| SctpPacket.CrcIsAffine | octavia/cmd/health_checker.py:94-98 | for equal lengths the CRC of a xor b is the xor of both CRCs and of the CRC of zeros |
| SctpPacket.BurstChangesCrc | octavia/cmd/health_checker.py:94-98 | strings that differ only within four consecutive bytes have equal CRCs if and only if they are equal |
| SctpPacket.ClearBurstIsDetected | octavia/cmd/health_checker.py:122-130 | a sealed packet changed within four bytes that do not cross an edge of the checksum field is sealed again only if nothing changed |
| SctpPacket.UndetectedIffSilent | octavia/cmd/health_checker.py:122-130 | for any two packets of one length, the changed packet passes if and only if its difference pattern carries its own residue in the checksum bytes |
| SctpPacket.EdgeBurstsGoUnnoticed | octavia/cmd/health_checker.py:122-152 | every sealed packet of the two lengths the program builds has an unnoticed change of four bytes across the edge of the checksum field |
| SctpPacket.Seal | octavia/cmd/health_checker.py:122-130 | writing the CRC into the blank checksum bytes seals the packet and changes no other byte |
| SctpPacket.BuildInitPacket | octavia/cmd/health_checker.py:101-130 | a fresh sealed packet of 32 bytes whose header and INIT chunk hold the given values at the offsets of the format; ports and tag are read from its bytes highest byte first |
| SctpPacket.BuildAbortPacket | octavia/cmd/health_checker.py:133-152 | a fresh sealed packet of 16 bytes whose bytes, highest first, give the ports and the tag, with an ABORT chunk |
| SctpPacket.DecodeFindsChunk | octavia/cmd/health_checker.py:155-172 | behind an IP header of any announced length, or none for IPv6, the chunk type and the tag test are those of the packet that was put together |
| SctpPacket.ShortIsRefused | octavia/cmd/health_checker.py:155-163 | fewer than 16 bytes behind the IP header are no answer |
| ObjectGraph.ToDataModel | octavia/db/base_models.py:76-128 | one level of the conversion terminates, only adds new copies to the shared dictionary, fails only if an inconvertible object is reachable, and otherwise leaves a full copy of all it added |
| ObjectGraph.CopyAttr | octavia/db/base_models.py:104-127 | one attribute is copied whether it holds an object, a list or a value, although other copies are still half filled |
| ObjectGraph.CopyList | octavia/db/base_models.py:115-127 | a list is copied in order, item by item, while its copies may lead back to the object at work |
| ObjectGraph.Convert | octavia/db/base_models.py:76-128 | a graph is converted if and only if every reachable object has a model and a key; the result is a copy, all fresh, of exactly what is reachable, in which every object has the columns, references and list items of its source and no other attributes |
| ObjectGraph.CopyMirrors | octavia/db/base_models.py:87-127 | a copy holds under each name the copy of the object referred to, the list of the same items in order, or the value of the column, and has no other names |
| ObjectGraph.FullCopy | octavia/db/base_models.py:76-128 | copies that hold up to the last attribute of every visited object are together a full copy of what the root reaches |
| ObjectGraph.CopiesReachFar | octavia/db/base_models.py:76-128 | everything on a path of the source has a copy once the start of the path has one |
| ObjectGraph.PendingShrinks | octavia/db/base_models.py:97-114 | the objects without a copy become fewer with every level, so cycles end |
| ObjectGraph.HopForth | octavia/db/base_models.py:104-127 | every reference or list element of the source has its counterpart at the same place in the copy |
| ObjectGraph.HopBack | octavia/db/base_models.py:104-127 | every reference or list element of the copy comes from the same place in the source |
| ObjectGraph.WalkForth | octavia/db/base_models.py:76-128 | following any references through the source can be repeated in the copy and stops at the copies of the same objects |
| ObjectGraph.WalkBack | octavia/db/base_models.py:76-128 | following any references through the copy can be repeated in the source |
| FindInGraph.Find | octavia/common/data_models.py:139-169 | one level of the search terminates with the shared list grown only by explored keys; a hit is reachable, a miss leaves nothing unexplored behind |
| FindInGraph.FindInAttr | octavia/common/data_models.py:153-167 | the search in one attribute visits all that it refers to unless it finds the key |
| FindInGraph.ExploredAll | octavia/common/data_models.py:145-151 | a finished list of visited keys contains everything that can be reached from a visited object |
| FindInGraph.FindFrom | octavia/common/data_models.py:139-169 | on every cyclic graph whose reachable objects all have keys, the search finds the object with the key if and only if it is reachable; an object without a key gives an error only if it is reachable, and always when the key sought is not |
| FindInGraph.CopyHasKeyIffSourceHas | octavia/common/data_models.py:139-169 | an object with the key is reachable in a converted graph if and only if one is reachable in the database graph |
| FindInGraph.FindInConverted | octavia/common/data_models.py:139-169 | converting a graph and searching the result finds a key if and only if an object with it is reachable in the database graph, provided all reachable classes can be searched |
| ToDict.ToDict | octavia/common/data_models.py:79-93 | the loop over the attributes ends on cyclic graphs and returns the specified dictionary |
| ToDict.ConvertValue | octavia/common/data_models.py:30-77 | values, objects and lists of both are converted as specified, a list being given up at its first object once the class is among the callers |
| ToDict.PrintedIffNoClassTwice | octavia/common/data_models.py:29-93 | an object is printed at the end of a path if and only if the path exists in the graph and no two objects left on the way are of one class |
| ToDict.DepthIsBounded | octavia/common/data_models.py:45-70 | no path of the result leaves more objects than there are classes |
| ToDict.PrintedObjectKeepsScalars | octavia/common/data_models.py:79-93 | wherever an object is printed, each of its shown scalar attributes is there and made serialisable |
| ToDict.EntryOf | octavia/common/data_models.py:83-92 | the result has an entry for a name if and only if the attribute exists and is shown, with the output of that attribute |
| ToDict.FlatDictionary | octavia/common/data_models.py:30-93 | without recursion the dictionary has exactly the wanted public attributes, objects as None, lists empty, tags as they are, moments and bytes as text |
| ToDict.ScalarsAndTags | octavia/common/data_models.py:79-93 | with recursion scalars and tags come out the same |
| ToDict.BriefDictionary | octavia/common/data_models.py:609-615 | a class with its own conversion shows its few attributes unchanged, in order, whatever is asked |
| PoolLinks.ConditionallyRemovePoolLinks | octavia/common/data_models.py:740-757 | the pool leaves the listener's list only under the guard, and both ends of every link stay together |
| PoolLinks.UpdatePolicy | octavia/common/data_models.py:759-802 | for every sanitised dictionary in any key order: action, pool, pool id, URL, enabled flag and place in the list are those that the dictionary asks for; the data model stays valid if and only if the update does not forget the policy's pool; an exact list stays exact if and only if no unused pool is left behind |
| PoolLinks.UpdateKey | octavia/common/data_models.py:760-802 | one key of the dictionary makes one step on the heap, and everything but the policy keeps agreeing |
| PoolLinks.PlacedOnce | octavia/common/data_models.py:786-788 | whatever the order of the keys, the one position key decides the place of the policy, and without one the list stays |
| PolicySteps.UpdateIsFineIff | octavia/common/data_models.py:759-802 | after the update the policy agrees with its pool and a used pool is listed, if and only if the policy had no pool or the update neither redirects to a prefix nor empties the pool id without an action |
| PolicySteps.OnlyUsedAfterIff | octavia/common/data_models.py:759-802 | a list of used pools holds an unused one after the update if and only if the update leaves one behind, a condition on the state before and the order of the keys |
| PolicySteps.UpdateReachesTarget | octavia/common/data_models.py:759-802 | whatever the order of the keys, the policy ends enabled or not, with the action, the pool and the URL that the dictionary asks for, and without those it empties |
| PolicySteps.ListedStep | octavia/common/data_models.py:760-801 | one more key keeps the account of which pools are listed for the policy's sake |
| PolicySteps.ForgottenPools | octavia/common/data_models.py:759-802 | on every policy with a pool, emptying the pool id alone and redirecting to a prefix both leave it in disagreement with its pool |
| PolicySteps.KeyOrderMatters | octavia/common/data_models.py:775-796 | switched on and then sent to a URL, a policy leaves its unused pool listed; in the other order it does not |
| PoolLinks.Move | octavia/common/data_models.py:786-788 | the policy moves within the listener's list, capped at the end, and every link and use stays as it was |
| PoolLinks.DeletePolicy | octavia/common/data_models.py:804-813 | the policy leaves both lists it is in; an exact list stays exact unless there is no default pool and the policy was the last user of its pool |
| PoolLinks.WhatStays | octavia/common/data_models.py:740-757 | after the guard has been applied, every listed pool is used without the policy if and only if there is a default pool or the policy was not the only user of its pool |
| PoolLinks.DeleteRule | octavia/common/data_models.py:698-707 | dropping a rule keeps the data model valid; with the last rule the policy leaves the listener |
| PoolLinks.UpdateDefaultPool | octavia/common/data_models.py:468-490 | changing the default pool links the new pool, drops the old one unless a policy uses it, and keeps an exact list exact |
| PoolLinks.DeleteListener | octavia/common/data_models.py:492-498 | the listener is gone from the load balancer and from the list of every pool |
| PoolLinks.DeletePool | octavia/common/data_models.py:348-373 | the pool is gone from every listener, as default pool too, and the policies it knows of are rejections; all other links and the exactness of each list stay; the data model is valid afterwards if and only if the pool knew of every policy that redirects to it |
| PoolLinks.DeleteNewTarget | octavia/common/data_models.py:348-373 | deleting a pool that a policy has just been moved to always leaves the data model invalid |
| PoolLinks.ListenerLosesPool | octavia/common/data_models.py:348-373 | a listener that loses a pool from its list, default and known policies is as consistent as before if and only if all its policies to the pool were known |
| PoolLinks.DerivePools | octavia/db/models.py:629-647 | the derived property lists without repeats exactly the pools in use |
| PoolLinks.DeriveListeners | octavia/db/models.py:378-393 | the derived property lists without repeats exactly the listeners that use the pool |
| PoolLinks.ListsAreDerived | octavia/db/models.py:378-393 | in every valid data model used pools are in both lists, and an exact list holds exactly what the database derives |
| PolicyRuns.SettledIsSanitised | octavia/common/validate.py:262-330 | every dictionary in a settled shape, its keys in any order, is one that UpdatePolicy is proved for, and it forgets a pool if and only if it has a prefix or a pool id without an action |
| PolicyRuns.SanitiserFeedsUpdate | octavia/common/validate.py:262-330 | the same for whatever the sanitiser makes of the arguments of an update |
| PolicyRuns.Perform | octavia/common/data_models.py:348-813 | every allowed update or deletion takes effect on the policy, rule, listener or pool it names, and keeps the data model valid and the exactness of every list whose listener has a default pool |
| PolicyRuns.Run | octavia/common/data_models.py:348-813 | over every run of updates and deletions, up to the first that is not allowed in its state, the data model stays valid; and both lists of a listener that had a default pool in every state equal what the database derives |
| Failover.Database.UpdateFailoverStopped | octavia/db/repositories.py:1709-1731 | exactly the stopped amphorae that are idle and heard of again become ALLOCATED |
| Failover.Database.GetStaleAmphora | octavia/db/repositories.py:1638-1707 | either the threshold stops every idle stale amphora and none is returned, or some eligible one is marked busy and returned, or there is none |
| Failover.Database.SetStatusForFailover | octavia/db/repositories.py:838-864 | the status changes if and only if the load balancer may fail over |
| Failover.Database.TestAndSetProvisioningStatus | octavia/db/repositories.py:805-836 | the status changes if and only if the load balancer is mutable, or deletable for a deletion |
| Failover.Database.HealthTransaction | octavia/controller/healthmanager/health_manager.py:94-110 | a turn of the health check is one transaction: picked and committed, quiet, stopped by the threshold, or lost with the tables as before |
| Failover.ApiLockTransaction | octavia/db/repositories.py:805-836 | what the test-and-set does to the tables is a step of the system: a claim if the test holds, nothing otherwise |
| Failover.ApiFailoverTransaction | octavia/db/repositories.py:838-864 | the same for the failover of a load balancer that an operator asks for |
| Failover.StepKeepsInv | octavia/controller/healthmanager/health_manager.py:68-148 | every step of every participant keeps the locks of all claims, their exclusion, and pending statuses owned |
| Failover.RunsAreSafe | octavia/controller/healthmanager/health_manager.py:68-148 | in every state of every interleaving no amphora is in two failovers, no load balancer has two owners, and a running failover's amphora is busy and its load balancer pending |
| Failover.ClaimLastsUntilFinish | octavia/db/repositories.py:805-864 | a claim and its locks stay until its own owner ends |
| Failover.PickedIsStale | octavia/db/repositories.py:1638-1707 | a picked amphora was idle, stale and ALLOCATED or stopped; at the threshold nothing is picked and every idle stale amphora not being deleted is stopped; a lost test-and-set changes nothing |
| Failover.HealthStepEffect | octavia/db/repositories.py:1638-1731 | a committed transaction changes only stopped amphorae that are back, at the threshold the idle stale ones not being deleted, and for a pick one health row and one load balancer; a lost one changes nothing |
| Failover.FinishReleases | octavia/controller/worker/v2/tasks/database_tasks.py:1055-1060 | the owner's last step leaves the load balancer with the reported status and no owner, and touches no other claim or load balancer |
| Failover.StoppedEndsWithHeartbeat | octavia/db/repositories.py:1709-1731 | FAILOVER_STOPPED is left only to ALLOCATED and only by an idle amphora with a fresh heartbeat |
| Failover.PickedHasBeenSilent | octavia/db/repositories.py:1638-1707 | over every run an amphora is not picked within the timeout after a heartbeat |
| Failover.HealthManager.HealthCheck | octavia/controller/healthmanager/health_manager.py:79-148 | a pass, whatever the others do in between, submits at most as many failovers as there are threads, each for an amphora it claimed itself, and fewer only if it is told to exit or its last transaction picked nothing |
| Pagination.BeforeOrders | octavia/api/common/pagination.py:307-331 | with a unique id among the keys the mixed-direction order is strict and total |
| Pagination.BeforeIsTransitive | octavia/api/common/pagination.py:307-331 | the mixed-direction lexicographic order is transitive |
| Pagination.BeforeIsDecided | octavia/api/common/pagination.py:347-382 | a row comes before another if and only if some key decides it with all earlier keys equal |
| Pagination.FirstDifferenceDecides | octavia/api/common/pagination.py:307-331 | the first key in which two rows differ decides their order, by its own direction |
| Pagination.BuildCriteria | octavia/api/common/pagination.py:347-384 | the filter built by the nested loops keeps exactly the rows after the marker, or before it in reverse |
| Pagination.PaginationHelper.AddDefaultSortKeys | octavia/api/common/pagination.py:299-305 | the keys are those of the request and then exactly the default keys that the model has and the request does not name, in the default direction |
| Pagination.PaginationHelper.Apply | octavia/api/common/pagination.py:299-388 | a request is refused if and only if a key is unknown or no row has the marker's id; otherwise the query orders by the keys determined by the request, is limited, and keeps exactly the rows beyond the marker row |
| Pagination.NextLinkAsksForPageAfter | octavia/api/common/pagination.py:168-174 | the request behind a next link answers with the page after the row it names |
| Pagination.AllKeysHaveId | octavia/api/common/pagination.py:299-305 | whatever a request asks for, its rows are sorted by the id as well if the model has one |
| Pagination.AllKeysAre | octavia/api/common/pagination.py:299-305 | the keys begin with those of the request, then created_at and id where the model has and the request lacks them, so the defaults only break ties |
| Pagination.MakeLinks | octavia/api/common/pagination.py:143-176 | a page that is full or unlimited gets a next link with the id of its last row, a page behind a marker a previous link with that of its first, an empty page none |
| Pagination.FollowLinks | octavia/api/common/pagination.py:143-388 | a client that makes one helper after another with the same parameters and the marker of the next link, over tables that change, sees a walk; it ends with a page without a next link, a marker row that is gone, or the last request |
| Pagination.AnswerExists | octavia/api/common/pagination.py:384-390 | every query whose order includes the id has an answer |
| Pagination.WalkIsIncreasing | octavia/api/common/pagination.py:143-176 | a walk returns rows in strictly increasing order whatever happens to the table in between |
| Pagination.CompletedWalkMissesNothing | octavia/api/common/pagination.py:143-176 | a completed walk returns every row that was there throughout exactly once |
| Pagination.WalkOverFixedTable | octavia/api/common/pagination.py:143-176 | over n fixed rows a walk makes at most n / limit + 1 requests and a completed one returns all rows |
| Pagination.WalkCanContinue | octavia/api/common/pagination.py:165-174 | a page that has a next link has a successor as long as the row it names is kept |
| Pagination.ReversePageIsPreviousIffFewRows | octavia/api/common/pagination.py:366-388 | a reverse request returns the page before the marker if and only if no more rows than the limit precede it |
| Pagination.LimitIsCappedIff | octavia/api/common/pagination.py:63-82 | the configured maximum caps the limit if and only if it is positive and the request does not ask for an unlimited page |
| Pagination.LimitIs | octavia/api/common/pagination.py:63-82 | a positive limit up to the maximum is taken as it is, a higher one gives the maximum, a missing one the maximum if positive, and what is no number is refused |
| Pagination.SortParameterIs | octavia/api/common/pagination.py:85-96 | each component of sort gives its key with its own or the default direction; the parameter is refused if and only if one has an unknown direction or too many parts |
| Pagination.KeysAndDirsAre | octavia/api/common/pagination.py:97-110 | each sort key gets the direction at its place or the default; the request is refused if and only if a direction that counts is unknown |
| Pagination.DirsAreDefaultIff | octavia/api/common/pagination.py:98-110 | leaving the directions out gives the same order if and only if those that matter are the default |
| Pagination.NextLinkKeepsOrderIff | octavia/api/common/pagination.py:151-173 | the request behind a next link sorts alike if and only if sort was used, or no keys, or default directions only |
| Pagination.NextLinkKeepsFiltersIff | octavia/api/common/pagination.py:151-173 | the request behind a next link filters alike if and only if nothing was filtered |
| Pagination.NextLinkKeepsLimitIff | octavia/api/common/pagination.py:151-173 | for every configured maximum the limit survives the next link if and only if there is a positive one; without one the request is refused |
| JoinFold.GetLbForHealthUpdate | octavia/db/repositories.py:1414-1466 | for any load balancer and any rows that answer the query, in any order and with any repeats, the fold gives exactly its listeners and its pools with their members |
| JoinFold.JoinedRow | octavia/db/repositories.py:1426-1430 | a row is in the three chained left joins if and only if it pairs any listener with any pool and a member of it, with NULL exactly where there is none |
| JoinFold.QueryIsJoin | octavia/db/repositories.py:1414-1433 | every row that answers the query fits the tables, and no listener, pool or member is missing from the rows |
| JoinFold.PoolStep | octavia/db/repositories.py:1449-1459 | one row adds to the pools exactly what the row is the first to show |
| JoinFold.AllSeen | octavia/db/repositories.py:1414-1433 | the join shows every listener, pool and member at least once, outer rows included |
| PolicyOrder.InsertedInPlace | octavia/db/repositories.py:1912 | an inserted policy is at its position, capped at the end, and the others are as they were |
| PolicyOrder.SortedUnique | octavia/db/models.py:595-598 | distinct positions determine the loaded list |
| PolicyOrder.PositionFindsPolicy | octavia/db/repositories.py:1911 | with positions 1 to n, popping position - 1 takes out the intended policy |
| PolicyOrder.LoadedWithLast | octavia/db/repositories.py:1918-1946 | a policy added at the largest position is loaded last behind the others in order |
| PolicyOrder.Policies.Create | octavia/db/repositories.py:1918-1958 | positions stay 1 to n; the new policy lands at the requested position or at the end, the others keep their order |
| PolicyOrder.Policies.Update | octavia/db/repositories.py:1862-1916 | a policy moves to the requested position capped at the end, the others keep their order, an unknown id changes nothing |
| PolicyOrder.Policies.Move | octavia/db/repositories.py:1905-1914 | popping by the stored position and inserting moves exactly this policy, and the positions are 1 to n again |
| PolicyOrder.Policies.Delete | octavia/db/repositories.py:1960-1977 | the gap closes, the others keep their order, and positions are 1 to n again |
| PolicyOrder.InsertBack | octavia/db/repositories.py:1911-1913 | moving a policy to where it is changes nothing |
| Quotas.LiveAfterInsert | octavia/db/repositories.py:475-500 | new rows raise the count of their kind and project by their number and no other count |
| Quotas.LiveAfterRemove | octavia/db/repositories.py:637-660 | removed rows lower the count of their kind and project by their number and no other count |
| Quotas.Repositories.CheckQuotaMet | octavia/db/repositories.py:465-635 | a grant depends on the counter, recounted when unset or zero, and raises it; a refusal leaves counters and limits as they were |
| Quotas.Repositories.DecrementQuota | octavia/db/repositories.py:637-744 | only a counter above zero is lowered, by the quantity; every other counter and all limits stay |
| Quotas.Repositories.SetLimit | octavia/db/repositories.py:1983-1997 | a new limit, or the default again, changes no counter |
| Quotas.Repositories.Create | octavia/db/repositories.py:465-635 | a creation is granted if and only if live rows plus new ones fit the limit or it is unlimited; after a grant the live rows are at most the limit, a refusal means that they would exceed it, and counters equal live rows again |
| Quotas.Repositories.Delete | octavia/db/repositories.py:637-744 | removal and decrement together keep every set counter equal to the live rows, so it is never negative |
| Statistics.SentAddsUp | octavia/db/repositories.py:1223-1250 | what the single reporters sent adds up to what was sent for the listener |
| Statistics.SentTallies | octavia/db/repositories.py:1223-1250 | each of the four counters of a listener is the sum of that counter over its deltas |
| Statistics.MembersTally | octavia/common/stats.py:56-68 | the same for all listeners of a load balancer |
| Statistics.LatestIsLast | octavia/db/repositories.py:1223-1250 | the active connections that count are those of the last report |
| Statistics.StatisticsRepository.Increment | octavia/db/repositories.py:1223-1250 | after any history each row holds the sum of its counters and the latest active connections |
| Statistics.StatisticsRepository.GetListenerStats | octavia/common/stats.py:32-54 | the totals of a listener are all deltas ever sent for it, its active connections the latest reports of the reporters that count |
| Statistics.StatisticsRepository.AddRows | octavia/common/stats.py:42-53 | adding rows counts each reporter once, active connections only of allocated amphorae and of the listener's own row |
| Statistics.StatisticsRepository.GetLoadBalancerStats | octavia/common/stats.py:56-68 | the statistics of a load balancer are the sum over its listeners |
| Statistics.NothingIsLost | octavia/common/stats.py:60-67 | summing per listener gives the sum of all deltas whose listener belongs to the load balancer, whatever their order |
| PolicyArgs.L7PolicyDict.Sanitize | octavia/common/validate.py:250-330 | the dictionary is changed in place to the specified result, or the specified error is given; it succeeds exactly for acceptable arguments and keeps their target |
| PolicyArgs.AcceptedIff | octavia/common/validate.py:262-330 | arguments are accepted if and only if the action is known and has its target, no second target remains, the URL that is read is one, and a creation has an action or a target |
| PolicyArgs.SanitizedKeepsTarget | octavia/common/validate.py:262-321 | the target that is left is the one asked for with its own value; a URL or prefix has the code asked for or 302, a pool has none; without action and target nothing changes |
| PolicyArgs.SanitizedIsConsistent | octavia/common/validate.py:262-330 | on success at most one of pool, URL and prefix is set, the action names it, and other keys are untouched |
| PolicyArgs.SanitizedIsSettled | octavia/common/validate.py:262-330 | on success the dictionary has one of the five settled shapes, with the emptied keys present or popped |
| PolicyArgs.SettledIsKept | octavia/common/validate.py:262-330 | a dictionary in a settled shape is accepted and not changed at all |
| PolicyArgs.SanitizingTwiceIsSanitizing | octavia/common/validate.py:262-330 | the sanitiser accepts its own result and leaves it as it is |
| PolicyArgs.ActionIsKeptIff | octavia/common/validate.py:262-321 | the requested action survives if and only if it is neither REJECT with a prefix nor REDIRECT_PREFIX with a URL |
| PolicyArgs.L7PolicyRow.Update | octavia/db/repositories.py:1874-1900 | the row changes as specified, or not at all when the arguments are refused or the pool is unknown, and only then; each column then holds what the arguments say |
| PolicyArgs.Create | octavia/db/repositories.py:1927-1939 | a row is created if and only if the arguments are acceptable and a pool they lead to is known, and it holds the action, the target and the code asked for |
| PolicyArgs.StoredIff | octavia/db/repositories.py:1811-1829 | creation and update fail for unacceptable arguments or for an unknown pool and for nothing else |
| PolicyArgs.CreatedSays | octavia/db/repositories.py:1918-1939 | a created row has the target asked for in its column, the other target columns NULL, and the code asked for or 302 |
| PolicyArgs.UpdatedSays | octavia/db/repositories.py:1862-1900 | after an update with an action or a target the row is what it asks for; after any other, exactly the columns with an entry change |
| PolicyArgs.CreatedAgrees | octavia/db/repositories.py:1918-1939 | in a created row exactly the target named by the action is set |
| PolicyArgs.UpdateKeepsAgreementIff | octavia/db/repositories.py:1862-1900 | an update keeps action and target in agreement if and only if it gives an action or a target, or leaves the stored target alone |
| PolicyArgs.RunsAgree | octavia/db/repositories.py:1862-1900 | over every run of such updates the stored policy keeps the agreement |
| PemBlocks.SplitX509s | octavia/common/tls_utils/cert_parser.py:132-154 | for every way to read the text as junk lines, certificate blocks and an unfinished rest, exactly the blocks come out in order |
| PemBlocks.ReturnsAreIgnored | octavia/common/tls_utils/cert_parser.py:144 | a carriage return anywhere in a text changes nothing |
| PemBlocks.LineEndsDoNotMatter | octavia/common/tls_utils/cert_parser.py:140-144 | lines joined by CRLF have the blocks of the same lines joined by LF |
| PemBlocks.LayoutOf | octavia/common/tls_utils/cert_parser.py:140-154 | every text can be read in that way |
| PemBlocks.YieldsCertificates | octavia/common/tls_utils/cert_parser.py:143-154 | the scan over such lines yields the texts of the certificate pieces and nothing of the rest |
| PemBlocks.BlocksAppend | octavia/common/tls_utils/cert_parser.py:132-154 | behind a text that does not stop inside a block, the blocks of another text follow unmixed |
| PemBlocks.SplittingTwiceIsSplitting | octavia/common/tls_utils/cert_parser.py:132-154 | splitting the join of the blocks of any text gives the same blocks |
| PemBlocks.BuildPem | octavia/common/tls_utils/cert_parser.py:341-354 | the file is the certificate, the key if there is one, and the intermediates, each followed by a newline |
| PemBlocks.BuiltPemKeepsBlocks | octavia/common/tls_utils/cert_parser.py:341-354 | for any texts that do not stop inside a block, the built file splits into the blocks of the certificate and of the intermediates in order, skipping a key without a certificate marker |
| PemBlocks.BuiltPemSplitsBack | octavia/common/tls_utils/cert_parser.py:341-354 | splitting the built file gives the certificate and then the intermediates, skipping a key without a certificate marker |
| Text.JoinUndoesSplit | octavia/db/types.py:46 | the parts of any string join to it again and contain no separator |
| Text.SplitUndoesJoin | octavia/db/types.py:38 | separator-free parts joined by an unbordered separator split into the same parts |
| ScalarList.ColumnSurvives | octavia/db/types.py:30-46 | reading any stored value and binding it again gives the stored value |
| ScalarList.OnlyTheEmptyStringIsLost | octavia/db/types.py:30-46 | a list that can be bound is read back if and only if it is not the list of one empty string |
| ScalarList.ListsComeBackIffUnbordered | octavia/db/types.py:26-46 | all other lists are read back if and only if no proper beginning of the separator is also its end |

## Left out

- SQLAlchemy, sessions, loading options, deadlock retries and lost connections: transactions are atomic steps.
- TaskFlow, the job board, futures, processes, signals and sockets, `sctp_health_check` included: foreign calls.
- Cryptography, ASN.1, X.509 contents and `_read_pem_blocks`: bodies of PEM blocks are opaque lines, and the PKCS7 reader only adds decoding by libraries to the same kind of scan.
- Text encodings: PEM texts are strings of characters, so undecodable bytes are not modelled.
- Failover.RunsAreSafe: the owner's work during a failover is one final step; health rows of a running failover are not removed by housekeeping, and a failover started through the API counts as an owner of its load balancer.
- Failover.HealthManager.HealthCheck: database errors, which end the pass as if nothing were stale, and the success counts in the log are not modelled.
- Pagination.PaginationHelper.Apply: NULL values, nested and renamed sort keys, what filters and tags select, and configurations with sorting or pagination switched off are not modelled; sort values are integers that stand for any ordered column type.
- PoolLinks.UpdatePolicy: the pool that the dictionary names exists in the load balancer, as the API checks before; otherwise the code fails on the missing pool.
- PolicyRuns.SettledIsSanitised: pools are named by id, since a `redirect_pool` object is accepted at creation only, and targets are not empty strings, which the API types refuse; the sanitiser itself is modelled for both.
- Quotas.Repositories.CheckQuotaMet: the seven branches that differ only in the resource are one method with a parameter.
- Statistics.StatisticsRepository.Increment: `replace` is not modelled, as it forgets the history; an empty amphora id counts as missing.
- ToDict.ToDict: the security group ids that `Vip.to_dict` adds without recursion are not modelled.
- PolicyArgs.Create: a pool object given without an id is checked by the id it has, whether or not the session has flushed it.
- The unique keys themselves (`_get_unique_key`): they are taken to be distinct. An availability zone named "Profile" followed by the id of an availability zone profile would share that profile's key.
- `Pool.update`, health monitors, members, TLS containers, provider dictionaries and default filling: single branches that would only add easy members.
- Validation of URLs, ciphers, headers and regular expressions: `url()` is an arbitrary predicate.
