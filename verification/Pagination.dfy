/** Keyset pagination of the API lists: how the query of one page is built and
    what a client sees that follows the next links through a table which may
    change between the requests.
 */
module Pagination {
  import opened Wrappers

  datatype Dir = Asc | Desc

  type SortKeys = seq<(string, Dir)>

  /** A row as far as sorting can see it: its non-null values in the sort
      columns, numbers standing for any ordered column type. */
  type Row = map<string, int>

  function Val(row: Row, column: string): int {
    if column in row then row[column] else 0
  }

  // ---- the order of the rows

  /** a comes before b in the mixed-direction lexicographic order. */
  predicate Before(keys: SortKeys, a: Row, b: Row) {
    keys != [] &&
    var (k, dir) := keys[0];
    if Val(a, k) == Val(b, k) then Before(keys[1..], a, b)
    else if dir == Asc then Val(a, k) < Val(b, k) else Val(a, k) > Val(b, k)
  }

  lemma {:induction false} BeforeIsIrreflexive(keys: SortKeys, a: Row)
    ensures !Before(keys, a, a)
  {
    if keys != [] {
      BeforeIsIrreflexive(keys[1..], a);
    }
  }

  lemma {:induction false} BeforeIsTransitive(keys: SortKeys, a: Row, b: Row, c: Row)
    requires Before(keys, a, b) && Before(keys, b, c)
    ensures Before(keys, a, c)
  {
    var k := keys[0].0;
    if Val(a, k) == Val(b, k) == Val(c, k) {
      BeforeIsTransitive(keys[1..], a, b, c);
    }
  }

  lemma {:induction false} BeforeIsTotal(keys: SortKeys, a: Row, b: Row)
    requires exists i :: 0 <= i < |keys| && Val(a, keys[i].0) != Val(b, keys[i].0)
    ensures Before(keys, a, b) || Before(keys, b, a)
  {
    if Val(a, keys[0].0) == Val(b, keys[0].0) {
      var i :| 0 <= i < |keys| && Val(a, keys[i].0) != Val(b, keys[i].0);
      assert keys[i] == keys[1..][i - 1];
      BeforeIsTotal(keys[1..], a, b);
    }
  }

  /** The first key in which two rows differ decides, in its own direction. */
  lemma {:induction false} FirstDifferenceDecides(keys: SortKeys, a: Row, b: Row, i: nat)
    requires i < |keys| && Val(a, keys[i].0) != Val(b, keys[i].0)
    requires forall j :: 0 <= j < i ==> Val(a, keys[j].0) == Val(b, keys[j].0)
    ensures keys[i].1 == Asc ==> (Before(keys, a, b) <==> Val(a, keys[i].0) < Val(b, keys[i].0))
    ensures keys[i].1 == Desc ==> (Before(keys, a, b) <==> Val(a, keys[i].0) > Val(b, keys[i].0))
  {
    if i > 0 {
      assert keys[1..][i - 1] == keys[i];
      assert forall j :: 0 <= j < i - 1 ==> keys[1..][j] == keys[j + 1];
      FirstDifferenceDecides(keys[1..], a, b, i - 1);
    }
  }

  /** More keys only break ties. */
  lemma {:induction false} MoreKeysRefine(keys: SortKeys, more: SortKeys, a: Row, b: Row)
    requires Before(keys, a, b)
    ensures Before(keys + more, a, b)
  {
    assert (keys + more)[1..] == keys[1..] + more;
    if Val(a, keys[0].0) == Val(b, keys[0].0) {
      MoreKeysRefine(keys[1..], more, a, b);
    }
  }

  predicate HasId(keys: SortKeys) {
    exists i :: 0 <= i < |keys| && keys[i].0 == "id"
  }

  /** Rows are told apart by their ids, over every table the client gets to see. */
  ghost predicate UniqueIds(rows: set<Row>) {
    forall a, b :: a in rows && b in rows && Val(a, "id") == Val(b, "id") ==> a == b
  }

  lemma BeforeOrders(keys: SortKeys, rows: set<Row>, a: Row, b: Row)
    requires HasId(keys) && UniqueIds(rows) && a in rows && b in rows
    ensures a == b || Before(keys, a, b) || Before(keys, b, a)
    ensures !(Before(keys, a, b) && Before(keys, b, a))
  {
    if a != b {
      assert Val(a, "id") != Val(b, "id");
      BeforeIsTotal(keys, a, b);
    }
    if Before(keys, a, b) && Before(keys, b, a) {
      BeforeIsTransitive(keys, a, b, a);
      BeforeIsIrreflexive(keys, a);
    }
  }

  // ---- the marker criteria

  datatype Comparison = Equal | Less | Greater

  datatype Atom = Atom(column: string, comparison: Comparison, value: int)

  predicate Holds(atom: Atom, row: Row) {
    match atom.comparison
    case Equal => Val(row, atom.column) == atom.value
    case Less => Val(row, atom.column) < atom.value
    case Greater => Val(row, atom.column) > atom.value
  }

  predicate AllHold(atoms: seq<Atom>, row: Row) {
    forall i :: 0 <= i < |atoms| ==> Holds(atoms[i], row)
  }

  predicate SomeHolds(criteria: seq<seq<Atom>>, row: Row) {
    exists i :: 0 <= i < |criteria| && AllHold(criteria[i], row)
  }

  function Beyond(dir: Dir, reverse: bool): Comparison {
    if (dir == Desc) == reverse then Greater else Less
  }

  predicate TiesUpTo(keys: SortKeys, n: nat, a: Row, b: Row)
    requires n <= |keys|
  {
    forall j :: 0 <= j < n ==> Val(a, keys[j].0) == Val(b, keys[j].0)
  }

  predicate DecidedAt(keys: SortKeys, i: nat, a: Row, b: Row)
    requires i < |keys|
  {
    && TiesUpTo(keys, i, a, b)
    && if keys[i].1 == Asc then Val(a, keys[i].0) < Val(b, keys[i].0) else Val(a, keys[i].0) > Val(b, keys[i].0)
  }

  lemma {:induction false} BeforeIsDecided(keys: SortKeys, a: Row, b: Row)
    ensures Before(keys, a, b) <==> exists i :: 0 <= i < |keys| && DecidedAt(keys, i, a, b)
  {
    if keys != [] {
      BeforeIsDecided(keys[1..], a, b);
      if Before(keys, a, b) {
        if Val(a, keys[0].0) == Val(b, keys[0].0) {
          var i :| 0 <= i < |keys[1..]| && DecidedAt(keys[1..], i, a, b);
          assert DecidedAt(keys, i + 1, a, b);
        } else {
          assert DecidedAt(keys, 0, a, b);
        }
      }
      if i :| 0 <= i < |keys| && DecidedAt(keys, i, a, b) {
        if i > 0 {
          forall j | 0 <= j < i - 1
            ensures Val(a, keys[1..][j].0) == Val(b, keys[1..][j].0)
          {
            assert keys[1..][j] == keys[j + 1];
          }
          assert DecidedAt(keys[1..], i - 1, a, b);
        }
      }
    }
  }

  /** The nested loops that turn the sort keys and the marker row into a filter. */
  method BuildCriteria(keys: SortKeys, marker: Row, reverse: bool) returns (criteriaList: seq<seq<Atom>>)
    ensures !reverse ==> forall row :: SomeHolds(criteriaList, row) <==> Before(keys, marker, row)
    ensures reverse ==> forall row :: SomeHolds(criteriaList, row) <==> Before(keys, row, marker)
  {
    var markerValues := [];
    for k := 0 to |keys|
      invariant |markerValues| == k
      invariant forall j :: 0 <= j < k ==> markerValues[j] == Val(marker, keys[j].0)
    {
      markerValues := markerValues + [Val(marker, keys[k].0)];
    }
    criteriaList := [];
    for i := 0 to |keys|
      invariant |criteriaList| == i
      invariant forall n, row :: 0 <= n < i ==>
        (AllHold(criteriaList[n], row) <==> if reverse then DecidedAt(keys, n, row, marker) else DecidedAt(keys, n, marker, row))
    {
      var critAttrs := [];
      for j := 0 to i
        invariant |critAttrs| == j
        invariant forall n :: 0 <= n < j ==> critAttrs[n] == Atom(keys[n].0, Equal, Val(marker, keys[n].0))
      {
        critAttrs := critAttrs + [Atom(keys[j].0, Equal, markerValues[j])];
      }
      ghost var ties := critAttrs;
      critAttrs := critAttrs + [Atom(keys[i].0, Beyond(keys[i].1, reverse), markerValues[i])];
      forall row
        ensures AllHold(critAttrs, row) <==> if reverse then DecidedAt(keys, i, row, marker) else DecidedAt(keys, i, marker, row)
      {
        CriterionMeansDecided(keys, i, marker, reverse, critAttrs, row);
      }
      criteriaList := criteriaList + [critAttrs];
    }
    forall row
      ensures SomeHolds(criteriaList, row) <==> if reverse then Before(keys, row, marker) else Before(keys, marker, row)
    {
      BeforeIsDecided(keys, marker, row);
      BeforeIsDecided(keys, row, marker);
    }
  }

  lemma CriterionMeansDecided(keys: SortKeys, i: nat, marker: Row, reverse: bool, atoms: seq<Atom>, row: Row)
    requires i < |keys| && |atoms| == i + 1
    requires forall n :: 0 <= n < i ==> atoms[n] == Atom(keys[n].0, Equal, Val(marker, keys[n].0))
    requires atoms[i] == Atom(keys[i].0, Beyond(keys[i].1, reverse), Val(marker, keys[i].0))
    ensures AllHold(atoms, row) <==> if reverse then DecidedAt(keys, i, row, marker) else DecidedAt(keys, i, marker, row)
  {
    var other := if reverse then TiesUpTo(keys, i, row, marker) else TiesUpTo(keys, i, marker, row);
    assert other <==> forall n :: 0 <= n < i ==> Holds(atoms[n], row);
    if AllHold(atoms, row) {
      assert Holds(atoms[i], row);
    }
  }

  // ---- the query of one page

  datatype Query = Query(criteria: Option<seq<seq<Atom>>>, orderBy: SortKeys, limit: Option<int>)

  predicate Selected(q: Query, row: Row) {
    q.criteria.None? || SomeHolds(q.criteria.value, row)
  }

  ghost predicate Sorted(keys: SortKeys, page: seq<Row>) {
    forall i, j :: 0 <= i < j < |page| ==> Before(keys, page[i], page[j])
  }

  /** What the database may answer: the selected rows in order, cut off after limit rows. */
  ghost predicate Answers(table: set<Row>, q: Query, page: seq<Row>) {
    && Sorted(q.orderBy, page)
    && (forall row :: row in page ==> row in table && Selected(q, row))
    && (q.limit.Some? ==> |page| <= q.limit.value)
    && (forall row :: row in table && Selected(q, row) && row !in page ==> CutOff(q, page, row))
  }

  ghost predicate CutOff(q: Query, page: seq<Row>, row: Row) {
    q.limit.Some? && |page| >= q.limit.value && forall p :: p in page ==> Before(q.orderBy, p, row)
  }

  /** The query keeps the rows on one side of the row m, which has the given id. */
  ghost predicate SelectsBeyond(keys: SortKeys, id: int, m: Row, reverse: bool, q: Query) {
    && Val(m, "id") == id
    && forall row :: Selected(q, row) <==> if reverse then Before(keys, row, m) else Before(keys, m, row)
  }

  const DEFAULT_SORT_KEYS: seq<string> := ["created_at", "id"]

  datatype Applied = Ready(query: Query) | InvalidSortKey(key: string) | InvalidMarker

  predicate Names(keys: SortKeys, column: string) {
    exists i :: 0 <= i < |keys| && keys[i].0 == column
  }

  predicate AllIn(keys: SortKeys, columns: set<string>) {
    forall i :: 0 <= i < |keys| ==> keys[i].0 in columns
  }

  /** Of the first n default keys, those that the model has and the request does not name. */
  function MissingDefaults(keys: SortKeys, columns: set<string>, dir: Dir, n: nat): SortKeys
    requires n <= |DEFAULT_SORT_KEYS|
  {
    if n == 0 then []
    else
      MissingDefaults(keys, columns, dir, n - 1)
      + if DEFAULT_SORT_KEYS[n - 1] in columns && !Names(keys, DEFAULT_SORT_KEYS[n - 1])
        then [(DEFAULT_SORT_KEYS[n - 1], dir)] else []
  }

  /** The keys by which a request is sorted. */
  function AllKeys(keys: SortKeys, columns: set<string>, dir: Dir): SortKeys {
    keys + MissingDefaults(keys, columns, dir, |DEFAULT_SORT_KEYS|)
  }

  lemma AllKeysHaveId(keys: SortKeys, columns: set<string>, dir: Dir)
    requires "id" in columns
    ensures HasId(AllKeys(keys, columns, dir))
  {
    var all := AllKeys(keys, columns, dir);
    assert DEFAULT_SORT_KEYS[1] == "id";
    if i :| 0 <= i < |keys| && keys[i].0 == "id" {
      assert all[i].0 == "id";
    } else {
      assert all[|all| - 1].0 == "id";
    }
  }

  lemma {:induction false} MissingAreColumns(keys: SortKeys, columns: set<string>, dir: Dir, n: nat)
    requires n <= |DEFAULT_SORT_KEYS|
    ensures AllIn(MissingDefaults(keys, columns, dir, n), columns)
  {
    if n > 0 {
      MissingAreColumns(keys, columns, dir, n - 1);
    }
  }

  lemma DefaultsAreColumns(keys: SortKeys, columns: set<string>, dir: Dir)
    ensures AllIn(AllKeys(keys, columns, dir), columns) <==> AllIn(keys, columns)
  {
    MissingAreColumns(keys, columns, dir, |DEFAULT_SORT_KEYS|);
    var all := AllKeys(keys, columns, dir);
    assert forall i :: 0 <= i < |keys| ==> all[i] == keys[i];
  }

  /** The request's own keys come first; what follows is created_at and then id, each if
      the model has it and the request does not name it.
   */
  ghost predicate RequestComesFirst(keys: SortKeys, columns: set<string>, dir: Dir, all: SortKeys) {
    && keys <= all
    && var createdAt := "created_at" in columns && forall i :: 0 <= i < |keys| ==> keys[i].0 != "created_at";
       var id := "id" in columns && forall i :: 0 <= i < |keys| ==> keys[i].0 != "id";
       all[|keys|..] == (if createdAt then [("created_at", dir)] else []) + (if id then [("id", dir)] else [])
  }

  lemma AllKeysAre(keys: SortKeys, columns: set<string>, dir: Dir)
    ensures RequestComesFirst(keys, columns, dir, AllKeys(keys, columns, dir))
    ensures forall a, b :: Before(keys, a, b) ==> Before(AllKeys(keys, columns, dir), a, b)
  {
    var missing := MissingDefaults(keys, columns, dir, 2);
    assert DEFAULT_SORT_KEYS[0] == "created_at" && DEFAULT_SORT_KEYS[1] == "id";
    assert MissingDefaults(keys, columns, dir, 0) == [];
    assert MissingDefaults(keys, columns, dir, 1) ==
           if "created_at" in columns && !Names(keys, "created_at") then [("created_at", dir)] else [];
    assert AllKeys(keys, columns, dir)[|keys|..] == missing;
    forall a, b | Before(keys, a, b)
      ensures Before(AllKeys(keys, columns, dir), a, b)
    {
      MoreKeysRefine(keys, missing, a, b);
    }
  }

  class PaginationHelper {
    const marker: Option<int>
    const sortDir: Dir
    const limit: Option<int>
    const pageReverse: bool
    var sortKeys: SortKeys

    constructor (marker: Option<int>, sortDir: Dir, limit: Option<int>, sortKeys: SortKeys, pageReverse: bool)
      ensures this.marker == marker && this.sortDir == sortDir && this.limit == limit
      ensures this.sortKeys == sortKeys && this.pageReverse == pageReverse
    {
      this.marker := marker;
      this.sortDir := sortDir;
      this.limit := limit;
      this.sortKeys := sortKeys;
      this.pageReverse := pageReverse;
    }

    /** Appends the default sort keys that the model has and the request does not name. */
    method AddDefaultSortKeys(columns: set<string>)
      modifies this`sortKeys
      ensures sortKeys == AllKeys(old(sortKeys), columns, sortDir)
      ensures RequestComesFirst(old(sortKeys), columns, sortDir, sortKeys)
    {
      AllKeysAre(sortKeys, columns, sortDir);
      var before := sortKeys;
      var keysOnly := seq(|before|, (i: nat) requires i < |before| => before[i].0);
      assert forall key :: key in keysOnly <==> Names(before, key) by {
        forall key
          ensures key in keysOnly <==> Names(before, key)
        {
          if i :| 0 <= i < |before| && before[i].0 == key {
            assert keysOnly[i] == key;
          }
        }
      }
      for n := 0 to |DEFAULT_SORT_KEYS|
        invariant sortKeys == before + MissingDefaults(before, columns, sortDir, n)
      {
        var key := DEFAULT_SORT_KEYS[n];
        if key !in keysOnly && key in columns {
          sortKeys := sortKeys + [(key, sortDir)];
        }
      }
    }

    method Apply(columns: set<string>, table: set<Row>) returns (r: Applied)
      requires "id" in columns
      modifies this`sortKeys
      ensures sortKeys == AllKeys(old(sortKeys), columns, sortDir) && HasId(sortKeys)
      ensures r.InvalidSortKey? <==> !AllIn(old(sortKeys), columns)
      ensures r.InvalidMarker? <==>
              AllIn(old(sortKeys), columns) && marker.Some? && forall row :: row in table ==> Val(row, "id") != marker.value
      ensures r.Ready? ==> r.query.orderBy == sortKeys && r.query.limit == limit
      ensures RequestComesFirst(old(sortKeys), columns, sortDir, sortKeys)
      ensures forall a, b :: Before(old(sortKeys), a, b) ==> Before(sortKeys, a, b)
      ensures r.Ready? ==> (marker.None? <==> r.query.criteria.None?)
      ensures r.Ready? && marker.Some? ==> exists m :: m in table && SelectsBeyond(sortKeys, marker.value, m, pageReverse, r.query)
    {
      ghost var before := sortKeys;
      AllKeysAre(before, columns, sortDir);
      AddDefaultSortKeys(columns);
      AllKeysHaveId(before, columns, sortDir);
      DefaultsAreColumns(before, columns, sortDir);
      for i := 0 to |sortKeys|
        invariant forall n :: 0 <= n < i ==> sortKeys[n].0 in columns
      {
        if sortKeys[i].0 !in columns {
          return InvalidSortKey(sortKeys[i].0);
        }
      }
      assert forall i :: 0 <= i < |before| ==> before[i] == sortKeys[i];
      var criteria := None;
      if marker.Some? {
        var found := set row | row in table && Val(row, "id") == marker.value;
        if found == {} {
          assert forall row :: row in table && Val(row, "id") == marker.value ==> row in found;
          return InvalidMarker;
        }
        var m :| m in found;
        var criteriaList := BuildCriteria(sortKeys, m, pageReverse);
        criteria := Some(criteriaList);
      }
      r := Ready(Query(criteria, sortKeys, limit));
    }
  }

  // ---- a walk along the next links

  /** A page is followed by a next link when it is full; the link names the last row. */
  predicate HasNext(page: seq<Row>, limit: Option<int>) {
    page != [] && (limit.None? || |page| >= limit.value)
  }

  /** A link: the marker is the id of a row of the page. */
  datatype Link = Previous(marker: int) | Next(marker: int)

  method MakeLinks(marker: Option<int>, limit: Option<int>, page: seq<Row>) returns (links: seq<Link>)
    ensures page == [] ==> links == []
    ensures page != [] ==>
              && (forall x :: Previous(x) in links <==> marker.Some? && x == Val(page[0], "id"))
              && (forall x :: Next(x) in links <==>
                    (limit.None? || |page| >= limit.value) && x == Val(page[|page| - 1], "id"))
    ensures (exists x :: Next(x) in links) <==> HasNext(page, limit)
  {
    links := [];
    if page != [] {
      if marker.Some? {
        links := links + [Previous(Val(page[0], "id"))];
      }
      if limit.None? || |page| >= limit.value {
        links := links + [Next(Val(page[|page| - 1], "id"))];
      }
      assert HasNext(page, limit) ==> Next(Val(page[|page| - 1], "id")) in links;
    }
  }

  /** The marker of the next link, if there is one. */
  method NextMarker(links: seq<Link>) returns (marker: Option<int>)
    ensures marker.None? <==> forall x :: Next(x) !in links
    ensures marker.Some? ==> Next(marker.value) in links
  {
    for i := 0 to |links|
      invariant forall j :: 0 <= j < i ==> !links[j].Next?
    {
      if links[i].Next? {
        return Some(links[i].marker);
      }
    }
    marker := None;
  }

  /** One request of a walk: the table as it is then, and the page it yields. */
  datatype Visit = Visit(table: set<Row>, page: seq<Row>)

  ghost predicate PageAfter(table: set<Row>, keys: SortKeys, after: Option<Row>, limit: Option<int>, page: seq<Row>) {
    && Sorted(keys, page)
    && (forall row :: row in page ==> row in table && (after.Some? ==> Before(keys, after.value, row)))
    && (limit.Some? ==> |page| <= limit.value)
    && (forall row :: row in table && (after.Some? ==> Before(keys, after.value, row)) && row !in page ==>
          limit.Some? && |page| >= limit.value && forall p :: p in page ==> Before(keys, p, row))
  }

  /** The request that a next link stands for asks for the page after the row it names. */
  lemma NextLinkAsksForPageAfter(keys: SortKeys, rows: set<Row>, table: set<Row>, last: Row, q: Query, m: Row, page: seq<Row>)
    requires UniqueIds(rows) && table <= rows && last in rows
    requires m in table && Val(m, "id") == Val(last, "id")
    requires q.orderBy == keys && forall row :: Selected(q, row) <==> Before(keys, m, row)
    requires Answers(table, q, page)
    ensures last in table && PageAfter(table, keys, Some(last), q.limit, page)
  {
    assert m == last;
    forall row | row in table && Before(keys, last, row) && row !in page
      ensures q.limit.Some? && |page| >= q.limit.value && forall p :: p in page ==> Before(keys, p, row)
    {
      assert CutOff(q, page, row);
    }
  }

  function Last(page: seq<Row>): Row
    requires page != []
  {
    page[|page| - 1]
  }

  /** Between two requests rows may come and go, but the row named by the link is kept. */
  ghost predicate IsWalk(keys: SortKeys, limit: Option<int>, visits: seq<Visit>) {
    && visits != []
    && (limit.Some? ==> limit.value >= 1)
    && PageAfter(visits[0].table, keys, None, limit, visits[0].page)
    && forall i :: 0 < i < |visits| ==> IsNextVisit(keys, limit, visits[i - 1], visits[i])
  }

  ghost predicate IsNextVisit(keys: SortKeys, limit: Option<int>, before: Visit, now: Visit) {
    && HasNext(before.page, limit)
    && Last(before.page) in now.table
    && PageAfter(now.table, keys, Some(Last(before.page)), limit, now.page)
  }

  ghost predicate IsCompleted(limit: Option<int>, visits: seq<Visit>) {
    visits != [] && !HasNext(visits[|visits| - 1].page, limit)
  }

  ghost function Rows(visits: seq<Visit>): seq<Row> {
    if visits == [] then [] else Rows(visits[..|visits| - 1]) + visits[|visits| - 1].page
  }

  lemma ShorterWalk(keys: SortKeys, limit: Option<int>, visits: seq<Visit>)
    requires IsWalk(keys, limit, visits) && |visits| > 1
    ensures IsWalk(keys, limit, visits[..|visits| - 1])
  {
    var init := visits[..|visits| - 1];
    forall i | 0 < i < |init|
      ensures IsNextVisit(keys, limit, init[i - 1], init[i])
    {
      assert IsNextVisit(keys, limit, visits[i - 1], visits[i]);
    }
  }

  lemma RowsEndWithLast(keys: SortKeys, limit: Option<int>, visits: seq<Visit>)
    requires IsWalk(keys, limit, visits) && visits[|visits| - 1].page != []
    ensures Rows(visits) != [] && Last(Rows(visits)) == Last(visits[|visits| - 1].page)
  {
  }

  lemma SortedConcat(keys: SortKeys, a: seq<Row>, b: seq<Row>)
    requires Sorted(keys, a) && Sorted(keys, b)
    requires a != [] && forall row :: row in b ==> Before(keys, Last(a), row)
    ensures Sorted(keys, a + b)
  {
    var s := a + b;
    forall i, j | 0 <= i < j < |s|
      ensures Before(keys, s[i], s[j])
    {
      if i < |a| && |a| <= j {
        assert b[j - |a|] in b;
        if i < |a| - 1 {
          BeforeIsTransitive(keys, s[i], Last(a), s[j]);
        }
      }
    }
  }

  /** Whatever happens to the table meanwhile, a walk returns rows in strictly increasing order. */
  lemma {:induction false} WalkIsIncreasing(keys: SortKeys, limit: Option<int>, visits: seq<Visit>)
    requires IsWalk(keys, limit, visits)
    ensures Sorted(keys, Rows(visits))
  {
    var n := |visits| - 1;
    if n == 0 {
      assert visits[..0] == [];
      assert Rows(visits) == visits[0].page;
    } else {
      var init := visits[..n];
      ShorterWalk(keys, limit, visits);
      WalkIsIncreasing(keys, limit, init);
      assert IsNextVisit(keys, limit, visits[n - 1], visits[n]);
      RowsEndWithLast(keys, limit, init);
      SortedConcat(keys, Rows(init), visits[n].page);
    }
  }

  lemma SortedHasNoRepeats(keys: SortKeys, rows: seq<Row>)
    requires Sorted(keys, rows)
    ensures forall i, j :: 0 <= i < j < |rows| ==> rows[i] != rows[j]
  {
    forall i, j | 0 <= i < j < |rows|
      ensures rows[i] != rows[j]
    {
      BeforeIsIrreflexive(keys, rows[i]);
    }
  }

  ghost predicate AlwaysThere(row: Row, visits: seq<Visit>) {
    forall i :: 0 <= i < |visits| ==> row in visits[i].table
  }

  lemma {:induction false} MissedRowsAreAhead(keys: SortKeys, limit: Option<int>, visits: seq<Visit>, row: Row)
    requires IsWalk(keys, limit, visits) && AlwaysThere(row, visits)
    ensures row in Rows(visits) || (HasNext(visits[|visits| - 1].page, limit) && Before(keys, Last(visits[|visits| - 1].page), row))
  {
    var n := |visits| - 1;
    if n > 0 {
      var init := visits[..n];
      ShorterWalk(keys, limit, visits);
      MissedRowsAreAhead(keys, limit, init, row);
      assert IsNextVisit(keys, limit, visits[n - 1], visits[n]);
    }
  }

  /** A completed walk has returned every row that was in the table throughout, exactly once. */
  lemma CompletedWalkMissesNothing(keys: SortKeys, limit: Option<int>, visits: seq<Visit>, row: Row)
    requires IsWalk(keys, limit, visits) && IsCompleted(limit, visits) && AlwaysThere(row, visits)
    ensures exists i :: 0 <= i < |Rows(visits)| && Rows(visits)[i] == row &&
              forall j :: 0 <= j < |Rows(visits)| && Rows(visits)[j] == row ==> j == i
  {
    MissedRowsAreAhead(keys, limit, visits, row);
    WalkIsIncreasing(keys, limit, visits);
    SortedHasNoRepeats(keys, Rows(visits));
    var i :| 0 <= i < |Rows(visits)| && Rows(visits)[i] == row;
  }

  lemma {:induction false} WalkSize(keys: SortKeys, limit: int, visits: seq<Visit>)
    requires IsWalk(keys, Some(limit), visits)
    ensures |Rows(visits)| >= (|visits| - 1) * limit
  {
    var n := |visits| - 1;
    if n > 0 {
      ShorterWalk(keys, Some(limit), visits);
      WalkSize(keys, limit, visits[..n]);
      assert IsNextVisit(keys, Some(limit), visits[n - 1], visits[n]);
      FullPages(keys, limit, visits[..n]);
    }
  }

  lemma {:induction false} FullPages(keys: SortKeys, limit: int, visits: seq<Visit>)
    requires IsWalk(keys, Some(limit), visits) && HasNext(visits[|visits| - 1].page, Some(limit))
    ensures |Rows(visits)| >= |visits| * limit
  {
    var n := |visits| - 1;
    if n > 0 {
      ShorterWalk(keys, Some(limit), visits);
      assert IsNextVisit(keys, Some(limit), visits[n - 1], visits[n]);
      FullPages(keys, limit, visits[..n]);
    }
  }

  ghost predicate Fixed(table: set<Row>, visits: seq<Visit>) {
    forall i :: 0 <= i < |visits| ==> visits[i].table == table
  }

  lemma {:induction false} RowsAreFromTable(keys: SortKeys, limit: Option<int>, visits: seq<Visit>, table: set<Row>)
    requires IsWalk(keys, limit, visits) && Fixed(table, visits)
    ensures forall row :: row in Rows(visits) ==> row in table
  {
    var n := |visits| - 1;
    if n > 0 {
      ShorterWalk(keys, limit, visits);
      RowsAreFromTable(keys, limit, visits[..n], table);
      assert IsNextVisit(keys, limit, visits[n - 1], visits[n]);
    }
  }

  lemma {:induction false} DistinctRowsFit(rows: seq<Row>, table: set<Row>)
    requires forall i, j :: 0 <= i < j < |rows| ==> rows[i] != rows[j]
    requires forall row :: row in rows ==> row in table
    ensures |rows| <= |table|
  {
    if rows != [] {
      var n := |rows| - 1;
      forall row | row in rows[..n]
        ensures row in table - {rows[n]}
      {
        var i :| 0 <= i < n && rows[i] == row;
      }
      DistinctRowsFit(rows[..n], table - {rows[n]});
    }
  }

  /** On a table of n rows that does not change, a walk makes at most n / limit + 1
      requests, and a completed one returns each row of the table. */
  lemma WalkOverFixedTable(keys: SortKeys, limit: int, visits: seq<Visit>, table: set<Row>)
    requires IsWalk(keys, Some(limit), visits) && Fixed(table, visits)
    ensures |visits| <= |table| / limit + 1
    ensures IsCompleted(Some(limit), visits) ==> |Rows(visits)| == |table| && forall row :: row in table <==> row in Rows(visits)
  {
    WalkIsIncreasing(keys, Some(limit), visits);
    SortedHasNoRepeats(keys, Rows(visits));
    RowsAreFromTable(keys, Some(limit), visits, table);
    DistinctRowsFit(Rows(visits), table);
    WalkSize(keys, limit, visits);
    QuotientBound(|visits| - 1, |table|, limit);
    if IsCompleted(Some(limit), visits) {
      forall row | row in table
        ensures row in Rows(visits)
      {
        MissedRowsAreAhead(keys, Some(limit), visits, row);
      }
      assert table == set row | row in Rows(visits);
      AllRowsCounted(Rows(visits));
    }
  }

  lemma {:induction false} AllRowsCounted(rows: seq<Row>)
    ensures |set row | row in rows| <= |rows|
  {
    if rows == [] {
      assert (set row | row in rows) == {};
    } else {
      var n := |rows| - 1;
      AllRowsCounted(rows[..n]);
      assert rows == rows[..n] + [rows[n]];
      assert (set row | row in rows) == (set row | row in rows[..n]) + {rows[n]};
    }
  }

  lemma QuotientBound(k: nat, n: nat, d: int)
    requires d >= 1 && k * d <= n
    ensures k <= n / d
  {
    var q := n / d;
    assert n == q * d + n % d;
    assert q * d + d == (q + 1) * d;
    if k > q {
      ProductIsMonotone(q + 1, k, d);
    }
  }

  lemma ProductIsMonotone(a: int, b: int, d: int)
    requires a <= b && d >= 0
    ensures a * d <= b * d
  {
  }

  // ---- a client that follows the next links

  datatype Ending = Completed | MarkerGone | OutOfTables | Refused

  /** What the walk may rely on: rows are told apart by their ids, and the database answers every query. */
  ghost predicate Serves(answer: (set<Row>, Query) -> seq<Row>, tables: seq<set<Row>>, keys: SortKeys, limit: Option<int>) {
    forall i, q: Query :: 0 <= i < |tables| && q.orderBy == keys && q.limit == limit ==> Answers(tables[i], q, answer(tables[i], q))
  }

  /** One request: a helper made for it, its query, and the page that the database answers with. */
  method Request(keys: SortKeys, columns: set<string>, sortDir: Dir, limit: Option<int>, marker: Option<int>,
                 table: set<Row>, answer: (set<Row>, Query) -> seq<Row>) returns (page: Option<seq<Row>>)
    requires "id" in columns && AllIn(keys, columns)
    requires forall q: Query :: q.orderBy == AllKeys(keys, columns, sortDir) && q.limit == limit ==> Answers(table, q, answer(table, q))
    ensures page.None? <==> marker.Some? && forall row :: row in table ==> Val(row, "id") != marker.value
    ensures page.Some? && marker.None? ==> PageAfter(table, AllKeys(keys, columns, sortDir), None, limit, page.value)
    ensures page.Some? && marker.Some? && UniqueIds(table) ==>
              exists m :: m in table && Val(m, "id") == marker.value
                          && PageAfter(table, AllKeys(keys, columns, sortDir), Some(m), limit, page.value)
  {
    var helper := new PaginationHelper(marker, sortDir, limit, keys, false);
    var applied := helper.Apply(columns, table);
    if applied.InvalidMarker? {
      return None;
    }
    var q := applied.query;
    page := Some(answer(table, q));
    if marker.None? {
      FirstPage(q.orderBy, table, q, page.value);
    } else {
      ghost var m :| m in table && SelectsBeyond(q.orderBy, marker.value, m, false, q);
      if UniqueIds(table) {
        NextLinkAsksForPageAfter(q.orderBy, table, table, m, q, m, page.value);
      }
    }
  }

  lemma FirstPage(keys: SortKeys, table: set<Row>, q: Query, page: seq<Row>)
    requires q.orderBy == keys && q.criteria.None? && Answers(table, q, page)
    ensures PageAfter(table, keys, None, q.limit, page)
  {
    forall row | row in table && row !in page
      ensures q.limit.Some? && |page| >= q.limit.value && forall p :: p in page ==> Before(keys, p, row)
    {
      assert CutOff(q, page, row);
    }
  }

  /** A client asks again and again with the same parameters and the marker of the next
      link, while the table is another at each request.  What it sees is a walk, which
      ends with a page that has no next link, with a marker row that is gone, or with
      the last request.
   */
  method FollowLinks(keys: SortKeys, columns: set<string>, sortDir: Dir, limit: Option<int>, tables: seq<set<Row>>,
                     answer: (set<Row>, Query) -> seq<Row>, ghost rows: set<Row>)
    returns (visits: seq<Visit>, ending: Ending)
    requires "id" in columns && tables != [] && (limit.Some? ==> limit.value >= 1)
    requires UniqueIds(rows) && forall i :: 0 <= i < |tables| ==> tables[i] <= rows
    requires Serves(answer, tables, AllKeys(keys, columns, sortDir), limit)
    ensures ending == Refused <==> !AllIn(keys, columns)
    ensures ending == Refused ==> visits == []
    ensures ending != Refused ==> IsWalk(AllKeys(keys, columns, sortDir), limit, visits)
    ensures |visits| <= |tables| && forall i :: 0 <= i < |visits| ==> visits[i].table == tables[i]
    ensures ending == Completed ==> IsCompleted(limit, visits)
    ensures ending == OutOfTables ==> !IsCompleted(limit, visits) && |visits| == |tables|
    ensures ending == MarkerGone ==>
              !IsCompleted(limit, visits) && |visits| < |tables| && Last(visits[|visits| - 1].page) !in tables[|visits|]
  {
    ghost var all := AllKeys(keys, columns, sortDir);
    visits := [];
    if !AllIn(keys, columns) {
      var helper := new PaginationHelper(None, sortDir, limit, keys, false);
      var applied := helper.Apply(columns, tables[0]);
      assert applied.InvalidSortKey?;
      return visits, Refused;
    }
    hide AllKeys, AllIn, PageAfter, Answers, UniqueIds;
    SubsetsAreUnique(rows, tables);
    var page := Request(keys, columns, sortDir, limit, None, tables[0], answer);
    visits := [Visit(tables[0], page.value)];
    var links := MakeLinks(None, limit, page.value);
    var marker := NextMarker(links);
    while marker.Some? && |visits| < |tables|
      invariant 0 < |visits| <= |tables| && IsWalk(all, limit, visits)
      invariant forall i :: 0 <= i < |visits| ==> visits[i].table == tables[i]
      invariant marker.Some? <==> HasNext(visits[|visits| - 1].page, limit)
      invariant marker.Some? ==> marker.value == Val(Last(visits[|visits| - 1].page), "id")
      decreases |tables| - |visits|
    {
      var table := tables[|visits|];
      ghost var last := Last(visits[|visits| - 1].page);
      page := Request(keys, columns, sortDir, limit, marker, table, answer);
      LastIsOfTable(all, limit, visits);
      MarkerFinds(rows, table, last);
      if page.None? {
        return visits, MarkerGone;
      }
      WalkGrows(all, limit, visits, Visit(table, page.value));
      visits := visits + [Visit(table, page.value)];
      links := MakeLinks(marker, limit, page.value);
      marker := NextMarker(links);
    }
    ending := if marker.Some? then OutOfTables else Completed;
  }

  lemma SubsetsAreUnique(rows: set<Row>, tables: seq<set<Row>>)
    requires UniqueIds(rows) && forall i :: 0 <= i < |tables| ==> tables[i] <= rows
    ensures forall i :: 0 <= i < |tables| ==> UniqueIds(tables[i])
  {
  }

  lemma LastIsOfTable(keys: SortKeys, limit: Option<int>, visits: seq<Visit>)
    requires IsWalk(keys, limit, visits) && visits[|visits| - 1].page != []
    ensures Last(visits[|visits| - 1].page) in visits[|visits| - 1].table
  {
    if |visits| > 1 {
      assert IsNextVisit(keys, limit, visits[|visits| - 2], visits[|visits| - 1]);
    }
  }

  /** The row with the id of the marker is the marker row. */
  lemma MarkerFinds(rows: set<Row>, table: set<Row>, last: Row)
    requires UniqueIds(rows) && table <= rows && last in rows
    ensures forall m :: m in table && Val(m, "id") == Val(last, "id") ==> m == last
  {
  }

  lemma WalkGrows(keys: SortKeys, limit: Option<int>, visits: seq<Visit>, next: Visit)
    requires IsWalk(keys, limit, visits) && IsNextVisit(keys, limit, visits[|visits| - 1], next)
    ensures IsWalk(keys, limit, visits + [next])
  {
    var longer := visits + [next];
    forall i | 0 < i < |longer|
      ensures IsNextVisit(keys, limit, longer[i - 1], longer[i])
    {
      if i < |visits| {
        assert IsNextVisit(keys, limit, visits[i - 1], visits[i]);
      }
    }
  }

  // ---- the database always has an answer

  ghost predicate IsFirst(keys: SortKeys, rows: set<Row>, m: Row) {
    m in rows && forall row :: row in rows && row != m ==> Before(keys, m, row)
  }

  lemma {:induction false} FirstExists(keys: SortKeys, rows: set<Row>) returns (m: Row)
    requires HasId(keys) && UniqueIds(rows) && rows != {}
    ensures IsFirst(keys, rows, m)
  {
    var a :| a in rows;
    if rows == {a} {
      m := a;
    } else {
      var b := FirstExists(keys, rows - {a});
      BeforeOrders(keys, rows, a, b);
      if Before(keys, a, b) {
        m := a;
        forall row | row in rows && row != m
          ensures Before(keys, m, row)
        {
          if row != b {
            BeforeIsTransitive(keys, a, b, row);
          }
        }
      } else {
        m := b;
      }
    }
  }

  ghost predicate IsPrefix(keys: SortKeys, rows: set<Row>, limit: Option<int>, page: seq<Row>) {
    && Sorted(keys, page)
    && (forall row :: row in page ==> row in rows)
    && (limit.Some? ==> |page| <= limit.value)
    && (forall row :: row in rows && row !in page ==> limit.Some? && |page| >= limit.value && forall p :: p in page ==> Before(keys, p, row))
  }

  lemma {:induction false} PrefixExists(keys: SortKeys, rows: set<Row>, limit: Option<int>) returns (page: seq<Row>)
    requires HasId(keys) && UniqueIds(rows) && (limit.Some? ==> limit.value >= 0)
    ensures IsPrefix(keys, rows, limit, page)
    decreases |rows|
  {
    if rows == {} || limit == Some(0) {
      page := [];
    } else {
      var m := FirstExists(keys, rows);
      var rest := PrefixExists(keys, rows - {m}, if limit.Some? then Some(limit.value - 1) else None);
      page := [m] + rest;
      forall i, j | 0 <= i < j < |page|
        ensures Before(keys, page[i], page[j])
      {
        assert page[j] == rest[j - 1] && rest[j - 1] in rest;
        if i > 0 {
          assert page[i] == rest[i - 1];
        }
      }
      forall row | row in rows && row !in page
        ensures limit.Some? && |page| >= limit.value && forall p :: p in page ==> Before(keys, p, row)
      {
        assert m in page;
        assert row !in rest;
      }
    }
  }

  /** Every query with a unique order has an answer, so there is a database that serves a walk. */
  lemma AnswerExists(table: set<Row>, q: Query) returns (page: seq<Row>)
    requires HasId(q.orderBy) && UniqueIds(table) && (q.limit.Some? ==> q.limit.value >= 0)
    ensures Answers(table, q, page)
  {
    var rows := set row | row in table && Selected(q, row);
    page := PrefixExists(q.orderBy, rows, q.limit);
    forall row | row in table && Selected(q, row) && row !in page
      ensures CutOff(q, page, row)
    {
      assert row in rows;
    }
  }

  /** A walk that has a next link can be continued, as long as the row it names is kept. */
  lemma WalkCanContinue(keys: SortKeys, limit: Option<int>, visits: seq<Visit>, table: set<Row>) returns (page: seq<Row>)
    requires IsWalk(keys, limit, visits) && HasNext(visits[|visits| - 1].page, limit)
    requires HasId(keys) && UniqueIds(table) && Last(visits[|visits| - 1].page) in table
    ensures IsWalk(keys, limit, visits + [Visit(table, page)])
  {
    var last := Last(visits[|visits| - 1].page);
    page := PrefixExists(keys, (set row | row in table && Before(keys, last, row)), limit);
    var longer := visits + [Visit(table, page)];
    forall i | 0 < i < |longer|
      ensures IsNextVisit(keys, limit, longer[i - 1], longer[i])
    {
      if i < |visits| {
        assert IsNextVisit(keys, limit, visits[i - 1], visits[i]);
      }
    }
  }

  // ---- reverse pages

  ghost function RowsBefore(table: set<Row>, keys: SortKeys, m: Row): set<Row> {
    set row | row in table && Before(keys, row, m)
  }

  /** The page that directly precedes the marker: rows that it leaves out come before the page. */
  ghost predicate DirectlyPrecedes(keys: SortKeys, rows: set<Row>, page: seq<Row>) {
    forall row, p :: row in rows && row !in page && p in page ==> Before(keys, row, p)
  }

  /** A request for the previous page sorts in the forward direction, so it gets
      the first rows of the table.  That is the page before the marker exactly
      when no more than limit rows precede the marker. */
  lemma ReversePageIsPreviousIffFewRows(table: set<Row>, keys: SortKeys, m: Row, limit: int, q: Query, page: seq<Row>)
    requires HasId(keys) && UniqueIds(table) && m in table && limit >= 1
    requires q.orderBy == keys && q.limit == Some(limit)
    requires forall row :: Selected(q, row) <==> Before(keys, row, m)
    requires Answers(table, q, page)
    ensures DirectlyPrecedes(keys, RowsBefore(table, keys, m), page) <==> |RowsBefore(table, keys, m)| <= limit
  {
    var rows := RowsBefore(table, keys, m);
    var shown := set row | row in page;
    SortedHasNoRepeats(keys, page);
    DistinctRowsFit(page, shown);
    AllRowsCounted(page);
    assert shown <= rows;
    if shown == rows {
      assert forall row :: row in rows ==> row in page;
    } else {
      var row :| row in rows && row !in shown;
      assert CutOff(q, page, row);
      assert page[0] in page;
      BeforeOrders(keys, table, page[0], row);
      SmallerSet(shown, rows, row);
    }
  }

  lemma SmallerSet(a: set<Row>, b: set<Row>, row: Row)
    requires a <= b && row in b && row !in a
    ensures |a| < |b|
  {
    assert |b| == |a| + |b - a|;
    assert row in b - a;
  }

  // ---- parameters of a request and of its next link

  /** The limit parameter as text: missing, the word infinite, a number, or something else. */
  datatype LimitParam = Absent | Infinite | Number(n: int) | NotANumber

  datatype ParsedLimit = Limit(value: Option<int>) | InvalidLimit | TypeError

  function ParseLimit(maxLimit: Option<int>, param: LimitParam): ParsedLimit {
    match param
    case Absent => if maxLimit.None? then TypeError else if maxLimit.value < 1 then Limit(None) else Limit(maxLimit)
    case Infinite => Limit(None)
    case NotANumber => InvalidLimit
    case Number(n) =>
      if n < 1 then Limit(None)
      else if maxLimit.None? || n <= maxLimit.value then Limit(Some(n))
      else Limit(maxLimit)
  }

  /** The configured maximum caps a page exactly when it is positive and the
      request asks for no unlimited page; an infinite maximum fails without a
      limit; a negative maximum makes a negative limit of a positive one. */
  lemma LimitIsCappedIff(m: int, param: LimitParam)
    requires ParseLimit(Some(m), param).Limit?
    ensures (exists v :: ParseLimit(Some(m), param) == Limit(Some(v)) && 1 <= v <= m)
       <==> m >= 1 && !param.Infinite? && (param.Number? ==> param.n >= 1)
    ensures ParseLimit(None, param).TypeError? <==> param.Absent?
  {
    var r := ParseLimit(Some(m), param);
    if m >= 1 && !param.Infinite? && (param.Number? ==> param.n >= 1) {
      assert r == Limit(Some(r.value.value)) && 1 <= r.value.value <= m;
    }
  }

  /** What a limit parameter asks for: at least one row and at most the maximum. */
  lemma LimitIs(maxLimit: Option<int>, n: int)
    ensures n < 1 ==> ParseLimit(maxLimit, Number(n)) == Limit(None)
    ensures n >= 1 && (maxLimit.Some? ==> n <= maxLimit.value) ==> ParseLimit(maxLimit, Number(n)) == Limit(Some(n))
    ensures n >= 1 && maxLimit.Some? && n > maxLimit.value ==> ParseLimit(maxLimit, Number(n)) == Limit(maxLimit)
    ensures ParseLimit(maxLimit, Infinite) == Limit(None) && ParseLimit(maxLimit, NotANumber) == InvalidLimit
    ensures ParseLimit(maxLimit, Absent) == if maxLimit.None? then TypeError
                                            else Limit(if maxLimit.value >= 1 then maxLimit else None)
  {
  }

  datatype DirToken = AscToken | DescToken | BadToken

  datatype SortComponent = Bare(key: string) | WithDir(key: string, dir: DirToken) | TooLong

  /** The parameters that a link carries or loses; empty sequences stand for missing
      ones, and others holds the filters, the tags, and the fields to return.
   */
  datatype Params = Params(limit: LimitParam, sort: seq<SortComponent>, sortKey: seq<string>, sortDir: seq<DirToken>,
                           others: map<string, string>)

  /** Arguments that do not filter. */
  const AUXILIARY_ARGUMENTS: set<string> := {"limit", "marker", "sort", "sort_key", "sort_dir", "fields", "page_reverse"}

  function FilterParams(p: Params): map<string, string> {
    map k | k in p.others && k !in AUXILIARY_ARGUMENTS :: p.others[k]
  }

  datatype ParsedKeys = Keys(keys: SortKeys) | InvalidSort

  function DirOf(token: DirToken): Option<Dir> {
    match token
    case AscToken => Some(Asc)
    case DescToken => Some(Desc)
    case BadToken => None
  }

  function ParseSort(sort: seq<SortComponent>, default: Dir): ParsedKeys {
    if sort == [] then Keys([])
    else
      var rest := ParseSort(sort[1..], default);
      match sort[0]
      case TooLong => InvalidSort
      case Bare(k) => if rest.Keys? then Keys([(k, default)] + rest.keys) else InvalidSort
      case WithDir(k, token) =>
        if DirOf(token).Some? && rest.Keys? then Keys([(k, DirOf(token).value)] + rest.keys) else InvalidSort
  }

  /** Missing directions are the default one, surplus directions are dropped. */
  function ParseKeysAndDirs(keys: seq<string>, dirs: seq<DirToken>, default: Dir): (r: ParsedKeys)
    ensures r.Keys? ==> |r.keys| == |keys|
  {
    if keys == [] then Keys([])
    else
      var dir := if dirs == [] then Some(default) else DirOf(dirs[0]);
      var rest := ParseKeysAndDirs(keys[1..], if dirs == [] then [] else dirs[1..], default);
      if dir.Some? && rest.Keys? then Keys([(keys[0], dir.value)] + rest.keys) else InvalidSort
  }

  function ParseSortKeys(p: Params, default: Dir): ParsedKeys {
    if p.sort != [] then ParseSort(p.sort, default) else ParseKeysAndDirs(p.sortKey, p.sortDir, default)
  }

  /** Key by key what the sort parameter asks for; a component with an unknown direction or too many parts refuses it. */
  lemma {:induction false} SortParameterIs(sort: seq<SortComponent>, default: Dir)
    ensures ParseSort(sort, default).InvalidSort? <==>
            exists i :: 0 <= i < |sort| && (sort[i].TooLong? || (sort[i].WithDir? && sort[i].dir == BadToken))
    ensures ParseSort(sort, default).Keys? ==>
              var keys := ParseSort(sort, default).keys;
              |keys| == |sort| && forall i :: 0 <= i < |sort| ==> MeansKey(sort[i], default, keys[i])
  {
    if sort != [] {
      SortParameterIs(sort[1..], default);
      assert forall i :: 0 <= i < |sort| - 1 ==> sort[1..][i] == sort[i + 1];
      if i :| 0 <= i < |sort| && (sort[i].TooLong? || (sort[i].WithDir? && sort[i].dir == BadToken)) {
        if i > 0 {
          assert sort[1..][i - 1].TooLong? || (sort[1..][i - 1].WithDir? && sort[1..][i - 1].dir == BadToken);
        }
      }
      if ParseSort(sort, default).Keys? {
        var keys, rest := ParseSort(sort, default).keys, ParseSort(sort[1..], default).keys;
        assert forall i :: 0 < i < |sort| ==> keys[i] == rest[i - 1] && sort[i] == sort[1..][i - 1];
      }
    }
  }

  predicate MeansKey(component: SortComponent, default: Dir, key: (string, Dir)) {
    match component
    case Bare(k) => key == (k, default)
    case WithDir(k, AscToken) => key == (k, Asc)
    case WithDir(k, DescToken) => key == (k, Desc)
    case _ => false
  }

  /** The same for separate keys and directions. */
  lemma {:induction false} KeysAndDirsAre(keys: seq<string>, dirs: seq<DirToken>, default: Dir)
    ensures ParseKeysAndDirs(keys, dirs, default).InvalidSort? <==>
            exists i :: 0 <= i < |keys| && i < |dirs| && dirs[i] == BadToken
    ensures ParseKeysAndDirs(keys, dirs, default).Keys? ==>
              var r := ParseKeysAndDirs(keys, dirs, default).keys;
              |r| == |keys| && forall i :: 0 <= i < |keys| ==>
                MeansKey(if i < |dirs| then WithDir(keys[i], dirs[i]) else Bare(keys[i]), default, r[i])
  {
    if keys != [] {
      var others := if dirs == [] then [] else dirs[1..];
      KeysAndDirsAre(keys[1..], others, default);
      assert forall i :: 0 < i < |keys| ==> keys[i] == keys[1..][i - 1] && (i < |dirs| ==> dirs[i] == others[i - 1]);
      if i :| 0 <= i < |keys| && i < |dirs| && dirs[i] == BadToken {
        if i > 0 {
          assert others[i - 1] == BadToken;
        }
      }
      if ParseKeysAndDirs(keys, dirs, default).Keys? {
        var r, rest := ParseKeysAndDirs(keys, dirs, default).keys, ParseKeysAndDirs(keys[1..], others, default).keys;
        assert forall i :: 0 < i < |keys| ==> r[i] == rest[i - 1];
      }
    }
  }

  /** The next link repeats the limit the helper worked with and the sort parameters, but not the
      directions and nothing else. */
  function NextParams(p: Params, limit: Option<int>): Params {
    Params(if limit.None? then NotANumber else Number(limit.value), p.sort, p.sortKey, [], map[])
  }

  predicate AllDefault(dirs: seq<DirToken>, n: nat, default: Dir) {
    forall i :: 0 <= i < n && i < |dirs| ==> DirOf(dirs[i]) == Some(default)
  }

  lemma {:induction false} DirsAreDefaultIff(keys: seq<string>, dirs: seq<DirToken>, default: Dir)
    requires ParseKeysAndDirs(keys, dirs, default).Keys?
    ensures ParseKeysAndDirs(keys, [], default).Keys?
    ensures ParseKeysAndDirs(keys, [], default) == ParseKeysAndDirs(keys, dirs, default) <==> AllDefault(dirs, |keys|, default)
  {
    if keys != [] {
      var rest := if dirs == [] then [] else dirs[1..];
      DirsAreDefaultIff(keys[1..], rest, default);
      var a, b := ParseKeysAndDirs(keys, [], default).keys, ParseKeysAndDirs(keys, dirs, default).keys;
      var a', b' := ParseKeysAndDirs(keys[1..], [], default).keys, ParseKeysAndDirs(keys[1..], rest, default).keys;
      assert a[1..] == a' && b[1..] == b';
      assert a == [a[0]] + a' && b == [b[0]] + b';
      if AllDefault(dirs, |keys|, default) {
        assert AllDefault(rest, |keys| - 1, default);
      }
      if AllDefault(rest, |keys| - 1, default) && (dirs != [] ==> DirOf(dirs[0]) == Some(default)) {
        forall i | 0 <= i < |keys| && i < |dirs|
          ensures DirOf(dirs[i]) == Some(default)
        {
          if i > 0 {
            assert dirs[i] == rest[i - 1];
          }
        }
      }
    }
  }

  /** Following a next link asks for the same order exactly when the request
      used the sort parameter, or no keys, or default directions only. */
  lemma NextLinkKeepsOrderIff(p: Params, limit: Option<int>, default: Dir)
    requires ParseSortKeys(p, default).Keys?
    ensures ParseSortKeys(NextParams(p, limit), default) == ParseSortKeys(p, default)
       <==> p.sort != [] || AllDefault(p.sortDir, |p.sortKey|, default)
  {
    if p.sort == [] {
      DirsAreDefaultIff(p.sortKey, p.sortDir, default);
    }
  }

  /** Following a next link stays within the filtered rows exactly when nothing was filtered. */
  lemma NextLinkKeepsFiltersIff(p: Params, limit: Option<int>)
    ensures FilterParams(NextParams(p, limit)) == FilterParams(p) <==> p.others.Keys <= AUXILIARY_ARGUMENTS
  {
    forall k | k in p.others && k !in AUXILIARY_ARGUMENTS
      ensures k in FilterParams(p)
    {
    }
  }

  /** The limit survives the link exactly when there is a positive one: an unlimited
      page that has a next link sends the client to a request that is refused, and
      a limit below one, which only a maximum below one makes, turns into none. */
  lemma NextLinkKeepsLimitIff(maxLimit: Option<int>, p: Params, limit: Option<int>)
    requires ParseLimit(maxLimit, p.limit) == Limit(limit)
    ensures ParseLimit(maxLimit, NextParams(p, limit).limit) == Limit(limit) <==> limit.Some? && limit.value >= 1
    ensures ParseLimit(maxLimit, NextParams(p, limit).limit).InvalidLimit? <==> limit.None?
    ensures limit.Some? && limit.value < 1 ==>
              maxLimit == limit && ParseLimit(maxLimit, NextParams(p, limit).limit) == Limit(None)
  {
  }
}
