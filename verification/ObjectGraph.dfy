/** Conversion of the ORM objects that hang together into data model objects.

    The ORM side is only read, so it is a value: a finite map from object
    identities to rows with attributes, which may point at each other in cycles.
    The data model side is built on the heap, and the dictionary of the objects
    made so far is one shared mutable object, as in the program.
 */
module ObjectGraph {
  import opened Wrappers

  type Oid = nat

  datatype Item = Entity(oid: Oid) | Plain(value: string)

  /** One attribute of an ORM object that does not start with an underscore. */
  datatype Attr =
    | Single(oid: Oid)
    | Many(items: seq<Item>)
    | Other(value: string)

  /** key is None where _get_unique_key raises; hasModel is false where
      __data_model__ is unset; searchable says whether the shorter
      _get_unique_key of the data models knows the class as well. */
  datatype OrmObject = OrmObject(
    hasModel: bool,
    key: Option<string>,
    searchable: bool,
    columns: map<string, string>,
    attrs: seq<(string, Attr)>)

  type Graph = map<Oid, OrmObject>

  datatype DmItem = DmEntity(entity: DataModel) | DmPlain(value: string)

  datatype DmAttr = DmRef(target: DataModel) | DmList(items: seq<DmItem>) | DmValue(value: string)

  class DataModel {
    const key: string
    const searchable: bool
    var attrs: map<string, DmAttr>

    constructor (key: string, searchable: bool, columns: map<string, string>)
      ensures this.key == key && this.searchable == searchable
      ensures attrs == Columns(columns)
      ensures attrs.Keys == columns.Keys && forall c :: c in columns ==> attrs[c] == DmValue(columns[c])
    {
      this.key := key;
      this.searchable := searchable;
      attrs := Columns(columns);
    }

    method SetAttr(name: string, value: DmAttr)
      modifies this
      ensures attrs == old(attrs)[name := value]
    {
      attrs := attrs[name := value];
    }
  }

  function Columns(columns: map<string, string>): map<string, DmAttr> {
    map c | c in columns :: DmValue(columns[c])
  }

  /** The dictionary _graph_nodes that all levels of one conversion share. */
  class GraphNodes {
    var nodes: map<string, DataModel>

    constructor ()
      ensures nodes == map[]
    {
      nodes := map[];
    }

    method Update(key: string, dm: DataModel)
      modifies this
      ensures nodes == old(nodes)[key := dm]
    {
      nodes := nodes[key := dm];
    }
  }

  datatype Outcome = Built(dm: DataModel) | NotImplemented

  // ---- well-formed graphs and reachability

  predicate Convertible(row: OrmObject) {
    row.hasModel && row.key.Some?
  }

  function Targets(attr: Attr): set<Oid> {
    match attr
    case Single(p) => {p}
    case Many(items) => set i | 0 <= i < |items| && items[i].Entity? :: items[i].oid
    case Other(_) => {}
  }

  ghost predicate PointsAt(row: OrmObject, p: Oid) {
    exists i :: 0 <= i < |row.attrs| && p in Targets(row.attrs[i].1)
  }

  ghost predicate ValidGraph(g: Graph) {
    && (forall o, p :: o in g && PointsAt(g[o], p) ==> p in g)
    && (forall o, i, j :: o in g && 0 <= i < j < |g[o].attrs| ==> g[o].attrs[i].0 != g[o].attrs[j].0)
  }

  ghost predicate DistinctKeys(g: Graph) {
    forall o, p :: o in g && p in g && g[o].key.Some? && g[o].key == g[p].key ==> o == p
  }

  /** path lists the objects passed after o on the way to p. */
  ghost predicate IsPath(g: Graph, o: Oid, path: seq<Oid>, p: Oid)
    decreases |path|
  {
    o in g && if path == [] then o == p else PointsAt(g[o], path[0]) && IsPath(g, path[0], path[1..], p)
  }

  ghost predicate Reachable(g: Graph, o: Oid, p: Oid) {
    exists path :: IsPath(g, o, path, p)
  }

  lemma ReachesItself(g: Graph, o: Oid)
    requires o in g
    ensures Reachable(g, o, o)
  {
    assert IsPath(g, o, [], o);
  }

  lemma ReachesThrough(g: Graph, o: Oid, p: Oid, q: Oid)
    requires o in g && PointsAt(g[o], p) && Reachable(g, p, q)
    ensures Reachable(g, o, q)
  {
    var path :| IsPath(g, p, path, q);
    assert ([p] + path)[1..] == path;
    assert IsPath(g, o, [p] + path, q);
  }

  // ---- what a finished copy looks like

  function ItemKey(g: Graph, p: Oid): Option<string> {
    if p in g then g[p].key else None
  }

  ghost predicate Known(g: Graph, p: Oid, nodes: map<string, DataModel>) {
    ItemKey(g, p).Some? && ItemKey(g, p).value in nodes
  }

  ghost predicate ItemCopied(g: Graph, item: Item, dm: DmItem, nodes: map<string, DataModel>) {
    match item
    case Entity(p) => Known(g, p, nodes) && dm == DmEntity(nodes[ItemKey(g, p).value])
    case Plain(v) => dm == DmPlain(v)
  }

  ghost predicate ListCopied(g: Graph, items: seq<Item>, dms: seq<DmItem>, nodes: map<string, DataModel>) {
    |items| == |dms| && forall i :: 0 <= i < |items| ==> ItemCopied(g, items[i], dms[i], nodes)
  }

  ghost predicate AttrCopied(g: Graph, name: string, attr: Attr, attrs: map<string, DmAttr>, columns: map<string, string>,
                             nodes: map<string, DataModel>)
  {
    match attr
    case Single(p) => Known(g, p, nodes) && name in attrs && attrs[name] == DmRef(nodes[ItemKey(g, p).value])
    case Many(items) => name in attrs && attrs[name].DmList? && ListCopied(g, items, attrs[name].items, nodes)
    case Other(_) => SameAt(name, attrs, Columns(columns))
  }

  ghost predicate SameAt<V>(name: string, a: map<string, V>, b: map<string, V>) {
    (name in a <==> name in b) && (name in a ==> a[name] == b[name])
  }

  /** The first n attributes of the row have been set; every other name holds its column value, if any. */
  ghost predicate CopiedUpTo(g: Graph, row: OrmObject, n: nat, attrs: map<string, DmAttr>, nodes: map<string, DataModel>)
    requires n <= |row.attrs|
  {
    && (forall i :: 0 <= i < n ==> AttrCopied(g, row.attrs[i].0, row.attrs[i].1, attrs, row.columns, nodes))
    && (forall name :: (forall i :: 0 <= i < n ==> row.attrs[i].0 != name) ==> SameAt(name, attrs, Columns(row.columns)))
  }

  ghost predicate IsCopy(g: Graph, o: Oid, dm: DataModel, nodes: map<string, DataModel>)
    reads dm
  {
    && o in g
    && g[o].key == Some(dm.key) && g[o].searchable == dm.searchable
    && CopiedUpTo(g, g[o], |g[o].attrs|, dm.attrs, nodes)
  }

  ghost predicate Extends(old_: map<string, DataModel>, new_: map<string, DataModel>) {
    forall k :: k in old_ ==> k in new_ && new_[k] == old_[k]
  }

  lemma CopiedUpToIsMonotone(g: Graph, row: OrmObject, n: nat, attrs: map<string, DmAttr>,
                             m1: map<string, DataModel>, m2: map<string, DataModel>)
    requires n <= |row.attrs|
    requires CopiedUpTo(g, row, n, attrs, m1) && Extends(m1, m2)
    ensures CopiedUpTo(g, row, n, attrs, m2)
  {
    forall i | 0 <= i < n
      ensures AttrCopied(g, row.attrs[i].0, row.attrs[i].1, attrs, row.columns, m2)
    {
      assert AttrCopied(g, row.attrs[i].0, row.attrs[i].1, attrs, row.columns, m1);
      if row.attrs[i].1.Many? {
        ListCopiedIsMonotone(g, row.attrs[i].1.items, attrs[row.attrs[i].0].items, m1, m2);
      }
    }
  }

  lemma ListCopiedIsMonotone(g: Graph, items: seq<Item>, dms: seq<DmItem>,
                             m1: map<string, DataModel>, m2: map<string, DataModel>)
    requires ListCopied(g, items, dms, m1) && Extends(m1, m2)
    ensures ListCopied(g, items, dms, m2)
  {
    forall i | 0 <= i < |items|
      ensures ItemCopied(g, items[i], dms[i], m2)
    {
      assert ItemCopied(g, items[i], dms[i], m1);
    }
  }

  // ---- the conversion

  /** The objects that the dictionary does not hold yet. */
  function Pending(g: Graph, nodes: map<string, DataModel>): set<Oid> {
    set o | o in g && !(g[o].key.Some? && g[o].key.value in nodes)
  }

  lemma PendingShrinks(g: Graph, o: Oid, before: map<string, DataModel>, after: map<string, DataModel>)
    requires Extends(before, after)
    ensures Pending(g, after) <= Pending(g, before)
    ensures NewlyKnown(g, o, before, after) ==> Pending(g, after) < Pending(g, before)
  {
    if NewlyKnown(g, o, before, after) {
      assert o in Pending(g, before) && o !in Pending(g, after);
    }
  }

  /** Each entry belongs to an object of the graph and is filed under its own key. */
  ghost predicate ValidNodes(g: Graph, nodes: map<string, DataModel>) {
    forall k :: k in nodes ==> nodes[k].key == k && exists o :: o in g && g[o].key == Some(k)
  }

  ghost predicate NewlyKnown(g: Graph, o: Oid, before: map<string, DataModel>, after: map<string, DataModel>) {
    o in g && Known(g, o, after) && !Known(g, o, before)
  }

  /** Everything that the dictionary gained, apart from the object under the key open, is finished. */
  ghost predicate GainedCopies(g: Graph, root: Oid, before: map<string, DataModel>, after: map<string, DataModel>,
                               open: Option<string>)
    reads set k | k in after && Some(k) != open :: after[k]
  {
    forall o :: NewlyKnown(g, o, before, after) && g[o].key != open ==>
      && Convertible(g[o])
      && Reachable(g, root, o)
      && IsCopy(g, o, after[g[o].key.value], after)
  }

  lemma GainedMore(g: Graph, root: Oid, p: Oid, m0: map<string, DataModel>, m1: map<string, DataModel>,
                   m2: map<string, DataModel>, open: Option<string>)
    requires root in g && PointsAt(g[root], p)
    requires Extends(m0, m1) && Extends(m1, m2)
    requires GainedCopies(g, root, m0, m1, open)
    requires GainedCopies(g, p, m1, m2, None)
    ensures GainedCopies(g, root, m0, m2, open)
  {
    hide IsPath, Reachable, CopiedUpTo;
    forall o | NewlyKnown(g, o, m0, m2) && g[o].key != open
      ensures Convertible(g[o]) && Reachable(g, root, o) && IsCopy(g, o, m2[g[o].key.value], m2)
    {
      if NewlyKnown(g, o, m0, m1) {
        CopiedUpToIsMonotone(g, g[o], |g[o].attrs|, m1[g[o].key.value].attrs, m1, m2);
      } else {
        assert NewlyKnown(g, o, m1, m2);
        ReachesThrough(g, root, p, o);
      }
    }
  }

  ghost predicate Unconvertible(g: Graph, root: Oid) {
    exists o :: o in g && Reachable(g, root, o) && !Convertible(g[o])
  }

  lemma UnconvertibleThrough(g: Graph, root: Oid, p: Oid)
    requires root in g && PointsAt(g[root], p) && Unconvertible(g, p)
    ensures Unconvertible(g, root)
  {
    var o :| o in g && Reachable(g, p, o) && !Convertible(g[o]);
    ReachesThrough(g, root, p, o);
  }

  lemma UnconvertibleItself(g: Graph, o: Oid)
    requires o in g && !Convertible(g[o])
    ensures Unconvertible(g, o)
  {
    ReachesItself(g, o);
  }

  twostate predicate AllFresh(g: Graph, before: map<string, DataModel>, new after: map<string, DataModel>) {
    forall k :: k in after && k !in before ==> fresh(after[k])
  }

  method ToDataModel(g: Graph, oid: Oid, memo: GraphNodes) returns (r: Outcome)
    requires ValidGraph(g) && DistinctKeys(g)
    requires oid in g && !Known(g, oid, memo.nodes)
    requires ValidNodes(g, memo.nodes)
    modifies memo
    ensures Extends(old(memo.nodes), memo.nodes) && ValidNodes(g, memo.nodes)
    ensures AllFresh(g, old(memo.nodes), memo.nodes)
    ensures r.NotImplemented? ==> Unconvertible(g, oid)
    ensures r.Built? ==> Known(g, oid, memo.nodes) && r.dm == memo.nodes[g[oid].key.value]
    ensures r.Built? ==> GainedCopies(g, oid, old(memo.nodes), memo.nodes, None)
    decreases Pending(g, memo.nodes), 0
  {
    hide IsPath, Reachable, CopiedUpTo, GainedCopies, Unconvertible, PointsAt, ValidGraph, IsCopy, Columns, Targets, DistinctKeys;
    var row := g[oid];
    if !row.hasModel {
      UnconvertibleItself(g, oid);
      return NotImplemented;
    }
    if row.key.None? {
      UnconvertibleItself(g, oid);
      return NotImplemented;
    }
    ghost var n0 := memo.nodes;
    var dmSelf := new DataModel(row.key.value, row.searchable, row.columns);
    memo.Update(row.key.value, dmSelf);
    NothingCopied(g, row, dmSelf.attrs, memo.nodes);
    NothingGained(g, oid, n0, dmSelf);
    var i := 0;
    while i < |row.attrs|
      invariant 0 <= i <= |row.attrs|
      invariant Extends(n0, memo.nodes) && ValidNodes(g, memo.nodes)
      invariant row.key.value in memo.nodes && memo.nodes[row.key.value] == dmSelf
      invariant AllFresh(g, n0, memo.nodes)
      invariant GainedCopies(g, oid, n0, memo.nodes, row.key)
      invariant CopiedUpTo(g, row, i, dmSelf.attrs, memo.nodes)
    {
      PendingShrinks(g, oid, n0, memo.nodes);
      var ok := CopyAttr(g, oid, i, dmSelf, memo, n0);
      if !ok {
        return NotImplemented;
      }
      i := i + 1;
    }
    Finished(g, oid, n0, memo.nodes);
    r := Built(dmSelf);
  }

  lemma NothingGained(g: Graph, oid: Oid, n0: map<string, DataModel>, dm: DataModel)
    requires oid in g && g[oid].key.Some? && !Known(g, oid, n0)
    ensures Extends(n0, n0[g[oid].key.value := dm])
    ensures GainedCopies(g, oid, n0, n0[g[oid].key.value := dm], g[oid].key)
  {
  }

  lemma Finished(g: Graph, oid: Oid, n0: map<string, DataModel>, n1: map<string, DataModel>)
    requires DistinctKeys(g) && oid in g && Convertible(g[oid]) && Known(g, oid, n1)
    requires n1[g[oid].key.value].key == g[oid].key.value
    requires n1[g[oid].key.value].searchable == g[oid].searchable
    requires GainedCopies(g, oid, n0, n1, g[oid].key)
    requires CopiedUpTo(g, g[oid], |g[oid].attrs|, n1[g[oid].key.value].attrs, n1)
    ensures GainedCopies(g, oid, n0, n1, None)
  {
    hide CopiedUpTo, IsPath, Reachable;
    ReachesItself(g, oid);
  }

  lemma PointsAtTarget(g: Graph, oid: Oid, i: nat, p: Oid)
    requires ValidGraph(g) && oid in g && i < |g[oid].attrs| && g[oid].attrs[i].1 == Single(p)
    ensures PointsAt(g[oid], p) && p in g
  {
    assert p in Targets(g[oid].attrs[i].1);
  }

  lemma PointsAtItem(g: Graph, oid: Oid, i: nat, j: nat, p: Oid)
    requires ValidGraph(g) && oid in g && i < |g[oid].attrs| && g[oid].attrs[i].1.Many?
    requires j < |g[oid].attrs[i].1.items| && g[oid].attrs[i].1.items[j] == Entity(p)
    ensures PointsAt(g[oid], p) && p in g
  {
    assert p in Targets(g[oid].attrs[i].1);
  }

  lemma AttrNamesDiffer(g: Graph, oid: Oid)
    requires ValidGraph(g) && oid in g
    ensures forall j, k :: 0 <= j < k < |g[oid].attrs| ==> g[oid].attrs[j].0 != g[oid].attrs[k].0
  {
  }

  lemma NothingCopied(g: Graph, row: OrmObject, attrs: map<string, DmAttr>, nodes: map<string, DataModel>)
    requires attrs == Columns(row.columns)
    ensures CopiedUpTo(g, row, 0, attrs, nodes)
  {
  }

  lemma CopiedOneMore(g: Graph, row: OrmObject, i: nat, a: map<string, DmAttr>, b: map<string, DmAttr>, nodes: map<string, DataModel>)
    requires i < |row.attrs|
    requires forall j, k :: 0 <= j < k < |row.attrs| ==> row.attrs[j].0 != row.attrs[k].0
    requires CopiedUpTo(g, row, i, a, nodes)
    requires forall name :: name != row.attrs[i].0 ==> SameAt(name, b, a)
    requires AttrCopied(g, row.attrs[i].0, row.attrs[i].1, b, row.columns, nodes)
    ensures CopiedUpTo(g, row, i + 1, b, nodes)
  {
    forall j | 0 <= j < i + 1
      ensures AttrCopied(g, row.attrs[j].0, row.attrs[j].1, b, row.columns, nodes)
    {
      if j < i {
        assert AttrCopied(g, row.attrs[j].0, row.attrs[j].1, a, row.columns, nodes);
        assert SameAt(row.attrs[j].0, b, a);
      }
    }
    forall name | forall j :: 0 <= j < i + 1 ==> row.attrs[j].0 != name
      ensures SameAt(name, b, Columns(row.columns))
    {
      assert row.attrs[i].0 != name;
      assert SameAt(name, a, Columns(row.columns));
      assert SameAt(name, b, a);
    }
  }

  /** One turn of the loop over the attribute names. */
  method CopyAttr(g: Graph, oid: Oid, i: nat, dmSelf: DataModel, memo: GraphNodes,
                  ghost n0: map<string, DataModel>) returns (ok: bool)
    requires ValidGraph(g) && DistinctKeys(g)
    requires oid in g && i < |g[oid].attrs|
    requires Known(g, oid, memo.nodes) && memo.nodes[g[oid].key.value] == dmSelf
    requires ValidNodes(g, memo.nodes) && Extends(n0, memo.nodes)
    requires GainedCopies(g, oid, n0, memo.nodes, g[oid].key)
    requires CopiedUpTo(g, g[oid], i, dmSelf.attrs, memo.nodes)
    modifies memo, dmSelf
    ensures Extends(old(memo.nodes), memo.nodes) && ValidNodes(g, memo.nodes)
    ensures AllFresh(g, old(memo.nodes), memo.nodes)
    ensures !ok ==> Unconvertible(g, oid)
    ensures ok ==> GainedCopies(g, oid, n0, memo.nodes, g[oid].key)
    ensures ok ==> CopiedUpTo(g, g[oid], i + 1, dmSelf.attrs, memo.nodes)
    decreases Pending(g, memo.nodes), 4
  {
    hide IsPath, Reachable, CopiedUpTo, GainedCopies, Unconvertible, PointsAt, ValidGraph, IsCopy, Columns, Targets, DistinctKeys;
    AttrNamesDiffer(g, oid);
    ghost var n1 := memo.nodes;
    ghost var attrs1 := dmSelf.attrs;
    var name, attr := g[oid].attrs[i].0, g[oid].attrs[i].1;
    match attr
    case Single(p) =>
      PointsAtTarget(g, oid, i, p);
      var r := CopyEntity(g, p, memo);
      ok := r.Built?;
      if ok {
        GainedMore(g, oid, p, n0, n1, memo.nodes, g[oid].key);
        CopiedUpToIsMonotone(g, g[oid], i, attrs1, n1, memo.nodes);
        dmSelf.SetAttr(name, DmRef(r.dm));
        CopiedOneMore(g, g[oid], i, attrs1, dmSelf.attrs, memo.nodes);
      } else {
        UnconvertibleThrough(g, oid, p);
      }
    case Many(items) =>
      ok := CopyList(g, oid, i, items, dmSelf, memo, n0);
    case Other(v) =>
      OtherIsUntouched(g, g[oid], i, attrs1, memo.nodes);
      CopiedOneMore(g, g[oid], i, attrs1, attrs1, memo.nodes);
      ok := true;
  }

  lemma OtherIsUntouched(g: Graph, row: OrmObject, i: nat, attrs: map<string, DmAttr>, nodes: map<string, DataModel>)
    requires i < |row.attrs| && row.attrs[i].1.Other?
    requires forall j, k :: 0 <= j < k < |row.attrs| ==> row.attrs[j].0 != row.attrs[k].0
    requires CopiedUpTo(g, row, i, attrs, nodes)
    ensures AttrCopied(g, row.attrs[i].0, row.attrs[i].1, attrs, row.columns, nodes)
  {
    assert forall j :: 0 <= j < i ==> row.attrs[j].0 != row.attrs[i].0;
  }

  /** The inner loop: an empty list is attached first and filled item by item. */
  method CopyList(g: Graph, oid: Oid, i: nat, items: seq<Item>, dmSelf: DataModel, memo: GraphNodes,
                  ghost n0: map<string, DataModel>) returns (ok: bool)
    requires ValidGraph(g) && DistinctKeys(g)
    requires oid in g && i < |g[oid].attrs| && g[oid].attrs[i].1 == Many(items)
    requires Known(g, oid, memo.nodes) && memo.nodes[g[oid].key.value] == dmSelf
    requires ValidNodes(g, memo.nodes) && Extends(n0, memo.nodes)
    requires GainedCopies(g, oid, n0, memo.nodes, g[oid].key)
    requires CopiedUpTo(g, g[oid], i, dmSelf.attrs, memo.nodes)
    modifies memo, dmSelf
    ensures Extends(old(memo.nodes), memo.nodes) && ValidNodes(g, memo.nodes)
    ensures AllFresh(g, old(memo.nodes), memo.nodes)
    ensures !ok ==> Unconvertible(g, oid)
    ensures ok ==> GainedCopies(g, oid, n0, memo.nodes, g[oid].key)
    ensures ok ==> CopiedUpTo(g, g[oid], i + 1, dmSelf.attrs, memo.nodes)
    decreases Pending(g, memo.nodes), 3
  {
    hide IsPath, Reachable, CopiedUpTo, GainedCopies, Unconvertible, PointsAt, ValidGraph, IsCopy, Columns, Targets, DistinctKeys, ListCopied, SameAt, AttrCopied, ItemCopied, Convertible;
    AttrNamesDiffer(g, oid);
    ghost var n1 := memo.nodes;
    ghost var attrs1 := dmSelf.attrs;
    var name := g[oid].attrs[i].0;
    dmSelf.SetAttr(name, DmList([]));
    var j := 0;
    EmptyListCopied(g, items, memo.nodes);
    while j < |items|
      invariant 0 <= j <= |items|
      invariant Extends(n1, memo.nodes) && ValidNodes(g, memo.nodes)
      invariant AllFresh(g, n1, memo.nodes)
      invariant GainedCopies(g, oid, n0, memo.nodes, g[oid].key)
      invariant name in dmSelf.attrs && dmSelf.attrs[name].DmList?
      invariant dmSelf.attrs == attrs1[name := dmSelf.attrs[name]]
      invariant ListCopied(g, items[..j], dmSelf.attrs[name].items, memo.nodes)
    {
      PendingShrinks(g, oid, n1, memo.nodes);
      ok := CopyItem(g, oid, i, items, j, dmSelf, memo, n0);
      if !ok {
        return;
      }
      j := j + 1;
    }
    assert items[..|items|] == items;
    CopiedUpToIsMonotone(g, g[oid], i, attrs1, n1, memo.nodes);
    ListSet(name, attrs1, dmSelf.attrs);
    CopiedOneMore(g, g[oid], i, attrs1, dmSelf.attrs, memo.nodes);
    ok := true;
  }

  lemma EmptyListCopied(g: Graph, items: seq<Item>, nodes: map<string, DataModel>)
    ensures ListCopied(g, items[..0], [], nodes)
  {
  }

  lemma ListSet(name: string, a: map<string, DmAttr>, b: map<string, DmAttr>)
    requires name in b && b == a[name := b[name]]
    ensures forall other :: other != name ==> SameAt(other, b, a)
  {
  }

  lemma ListGrows(g: Graph, items: seq<Item>, j: nat, dms: seq<DmItem>, dm: DmItem, nodes: map<string, DataModel>)
    requires j < |items|
    requires ListCopied(g, items[..j], dms, nodes) && ItemCopied(g, items[j], dm, nodes)
    ensures ListCopied(g, items[..j + 1], dms + [dm], nodes)
  {
  }

  /** One turn of the inner loop. */
  method CopyItem(g: Graph, oid: Oid, i: nat, items: seq<Item>, j: nat, dmSelf: DataModel, memo: GraphNodes,
                  ghost n0: map<string, DataModel>) returns (ok: bool)
    requires ValidGraph(g) && DistinctKeys(g)
    requires oid in g && i < |g[oid].attrs| && g[oid].attrs[i].1 == Many(items) && j < |items|
    requires Known(g, oid, memo.nodes) && memo.nodes[g[oid].key.value] == dmSelf
    requires ValidNodes(g, memo.nodes) && Extends(n0, memo.nodes)
    requires GainedCopies(g, oid, n0, memo.nodes, g[oid].key)
    requires g[oid].attrs[i].0 in dmSelf.attrs && dmSelf.attrs[g[oid].attrs[i].0].DmList?
    requires ListCopied(g, items[..j], dmSelf.attrs[g[oid].attrs[i].0].items, memo.nodes)
    modifies memo, dmSelf
    ensures Extends(old(memo.nodes), memo.nodes) && ValidNodes(g, memo.nodes)
    ensures AllFresh(g, old(memo.nodes), memo.nodes)
    ensures !ok ==> Unconvertible(g, oid)
    ensures ok ==> GainedCopies(g, oid, n0, memo.nodes, g[oid].key)
    ensures ok ==> g[oid].attrs[i].0 in dmSelf.attrs && dmSelf.attrs[g[oid].attrs[i].0].DmList?
    ensures ok ==> dmSelf.attrs == old(dmSelf.attrs)[g[oid].attrs[i].0 := dmSelf.attrs[g[oid].attrs[i].0]]
    ensures ok ==> ListCopied(g, items[..j + 1], dmSelf.attrs[g[oid].attrs[i].0].items, memo.nodes)
    decreases Pending(g, memo.nodes), 2
  {
    hide IsPath, Reachable, CopiedUpTo, GainedCopies, Unconvertible, PointsAt, ValidGraph, IsCopy, Columns, Targets, DistinctKeys, ListCopied;
    ghost var n2 := memo.nodes;
    var name := g[oid].attrs[i].0;
    var listref := dmSelf.attrs[name].items;
    match items[j]
    case Plain(v) =>
      ListGrows(g, items, j, listref, DmPlain(v), n2);
      dmSelf.SetAttr(name, DmList(listref + [DmPlain(v)]));
      ok := true;
    case Entity(p) =>
      PointsAtItem(g, oid, i, j, p);
      var r := CopyEntity(g, p, memo);
      ok := r.Built?;
      if ok {
        GainedMore(g, oid, p, n0, n2, memo.nodes, g[oid].key);
        ListCopiedIsMonotone(g, items[..j], listref, n2, memo.nodes);
        ListGrows(g, items, j, listref, DmEntity(r.dm), memo.nodes);
        dmSelf.SetAttr(name, DmList(listref + [DmEntity(r.dm)]));
      } else {
        UnconvertibleThrough(g, oid, p);
      }
  }

  /** An object that is in the dictionary already is referenced, any other one is converted first. */
  method CopyEntity(g: Graph, p: Oid, memo: GraphNodes) returns (r: Outcome)
    requires ValidGraph(g) && DistinctKeys(g) && p in g
    requires ValidNodes(g, memo.nodes)
    modifies memo
    ensures Extends(old(memo.nodes), memo.nodes) && ValidNodes(g, memo.nodes)
    ensures AllFresh(g, old(memo.nodes), memo.nodes)
    ensures r.NotImplemented? ==> Unconvertible(g, p)
    ensures r.Built? ==> Known(g, p, memo.nodes) && r.dm == memo.nodes[g[p].key.value]
    ensures r.Built? ==> GainedCopies(g, p, old(memo.nodes), memo.nodes, None)
    decreases Pending(g, memo.nodes), 1
  {
    ReachesItself(g, p);
    if g[p].key.None? {
      return NotImplemented;
    }
    if g[p].key.value in memo.nodes {
      r := Built(memo.nodes[g[p].key.value]);
    } else {
      r := ToDataModel(g, p, memo);
    }
  }

  // ---- the whole conversion

  /** The dictionary holds one finished copy for each object that the root
      reaches, filed under the key of the object, and nothing else. */
  ghost predicate IsFullCopy(g: Graph, root: Oid, nodes: map<string, DataModel>)
    reads set k | k in nodes :: nodes[k]
  {
    && ValidNodes(g, nodes)
    && (forall o :: o in g ==> (Known(g, o, nodes) <==> Reachable(g, root, o)))
    && (forall o :: o in g && Known(g, o, nodes) ==> IsCopy(g, o, nodes[g[o].key.value], nodes))
  }

  lemma CopyKnowsTargets(g: Graph, o: Oid, p: Oid, attrs: map<string, DmAttr>, nodes: map<string, DataModel>)
    requires o in g && PointsAt(g[o], p)
    requires CopiedUpTo(g, g[o], |g[o].attrs|, attrs, nodes)
    ensures Known(g, p, nodes)
  {
    var i :| 0 <= i < |g[o].attrs| && p in Targets(g[o].attrs[i].1);
    assert AttrCopied(g, g[o].attrs[i].0, g[o].attrs[i].1, attrs, g[o].columns, nodes);
    if g[o].attrs[i].1.Many? {
      var items := g[o].attrs[i].1.items;
      var j :| 0 <= j < |items| && items[j].Entity? && items[j].oid == p;
      assert ItemCopied(g, items[j], attrs[g[o].attrs[i].0].items[j], nodes);
    }
  }

  /** A dictionary whose entries are all finished is closed under references. */
  lemma {:induction false} CopiesReachFar(g: Graph, o: Oid, path: seq<Oid>, p: Oid, nodes: map<string, DataModel>)
    requires IsPath(g, o, path, p)
    requires Known(g, o, nodes)
    requires forall q :: q in g && Known(g, q, nodes) ==> IsCopy(g, q, nodes[g[q].key.value], nodes)
    ensures Known(g, p, nodes)
    decreases |path|
  {
    hide CopiedUpTo;
    if path != [] {
      CopyKnowsTargets(g, o, path[0], nodes[g[o].key.value].attrs, nodes);
      CopiesReachFar(g, path[0], path[1..], p, nodes);
    }
  }

  lemma FullCopy(g: Graph, root: Oid, nodes: map<string, DataModel>)
    requires ValidNodes(g, nodes)
    requires root in g && Known(g, root, nodes)
    requires GainedCopies(g, root, map[], nodes, None)
    ensures IsFullCopy(g, root, nodes)
    ensures forall o :: o in g && Reachable(g, root, o) ==> Convertible(g[o])
  {
    hide IsPath, CopiedUpTo;
    forall o | o in g && Known(g, o, nodes)
      ensures Convertible(g[o]) && Reachable(g, root, o) && IsCopy(g, o, nodes[g[o].key.value], nodes)
    {
      assert NewlyKnown(g, o, map[], nodes);
    }
    forall o | o in g && Reachable(g, root, o)
      ensures Known(g, o, nodes)
    {
      var path :| IsPath(g, root, path, o);
      CopiesReachFar(g, root, path, o, nodes);
    }
  }

  /** What a reader of the copy finds under every name, said of the row itself: a reference
      to the copy of the target, a list of the same items with copies for objects, or
      the value of the column; and no other names.
   */
  ghost predicate Mirrors(g: Graph, row: OrmObject, d: DataModel, nodes: map<string, DataModel>)
    reads d
  {
    && row.key == Some(d.key)
    && (forall i :: 0 <= i < |row.attrs| ==>
          match row.attrs[i].1
          case Single(p) =>
            && p in g && g[p].key.Some? && g[p].key.value in nodes
            && row.attrs[i].0 in d.attrs && d.attrs[row.attrs[i].0] == DmRef(nodes[g[p].key.value])
          case Many(items) =>
            row.attrs[i].0 in d.attrs && d.attrs[row.attrs[i].0].DmList?
            && MirrorsList(g, items, d.attrs[row.attrs[i].0].items, nodes)
          case Other(_) => true)
    && (forall c :: c in row.columns && !IsSet(row, c) ==> c in d.attrs && d.attrs[c] == DmValue(row.columns[c]))
    && (forall c :: c in d.attrs ==> c in row.columns || IsSet(row, c))
  }

  ghost predicate MirrorsList(g: Graph, items: seq<Item>, dms: seq<DmItem>, nodes: map<string, DataModel>) {
    |dms| == |items| && forall j :: 0 <= j < |items| ==>
      match items[j]
      case Entity(p) => p in g && g[p].key.Some? && g[p].key.value in nodes && dms[j] == DmEntity(nodes[g[p].key.value])
      case Plain(v) => dms[j] == DmPlain(v)
  }

  /** Some attribute that holds an object or a list has the name. */
  predicate IsSet(row: OrmObject, name: string) {
    exists i :: 0 <= i < |row.attrs| && row.attrs[i].0 == name && !row.attrs[i].1.Other?
  }

  lemma CopyMirrors(g: Graph, o: Oid, d: DataModel, nodes: map<string, DataModel>)
    requires IsCopy(g, o, d, nodes)
    ensures Mirrors(g, g[o], d, nodes)
  {
    var row := g[o];
    forall i | 0 <= i < |row.attrs| && row.attrs[i].1.Many?
      ensures row.attrs[i].0 in d.attrs && d.attrs[row.attrs[i].0].DmList?
      ensures MirrorsList(g, row.attrs[i].1.items, d.attrs[row.attrs[i].0].items, nodes)
    {
      assert AttrCopied(g, row.attrs[i].0, row.attrs[i].1, d.attrs, row.columns, nodes);
      ListMirrors(g, row.attrs[i].1.items, d.attrs[row.attrs[i].0].items, nodes);
    }
    forall c | !IsSet(row, c)
      ensures c in d.attrs <==> c in row.columns
      ensures c in d.attrs ==> d.attrs[c] == DmValue(row.columns[c])
    {
      if i :| 0 <= i < |row.attrs| && row.attrs[i].0 == c {
        assert AttrCopied(g, c, row.attrs[i].1, d.attrs, row.columns, nodes);
      }
      assert SameAt(c, d.attrs, Columns(row.columns));
    }
  }

  lemma ListMirrors(g: Graph, items: seq<Item>, dms: seq<DmItem>, nodes: map<string, DataModel>)
    requires ListCopied(g, items, dms, nodes)
    ensures MirrorsList(g, items, dms, nodes)
  {
    forall j | 0 <= j < |items|
      ensures match items[j]
              case Entity(p) => p in g && g[p].key.Some? && g[p].key.value in nodes && dms[j] == DmEntity(nodes[g[p].key.value])
              case Plain(v) => dms[j] == DmPlain(v)
    {
      assert ItemCopied(g, items[j], dms[j], nodes);
    }
  }

  lemma AllMirror(g: Graph, root: Oid, nodes: map<string, DataModel>)
    requires IsFullCopy(g, root, nodes)
    ensures forall o :: o in g && Reachable(g, root, o) ==>
              Known(g, o, nodes) && Mirrors(g, g[o], nodes[g[o].key.value], nodes)
  {
    hide IsCopy, Mirrors, Reachable;
    forall o | o in g && Reachable(g, root, o)
      ensures Known(g, o, nodes) && Mirrors(g, g[o], nodes[g[o].key.value], nodes)
    {
      CopyMirrors(g, o, nodes[g[o].key.value], nodes);
    }
  }

  /** The call from outside: it starts with an empty dictionary.  For every
      graph, cyclic or not, it terminates; it succeeds exactly when all that the
      root reaches can be converted, and then the result is a full copy made of
      new objects. */
  method Convert(g: Graph, root: Oid) returns (r: Outcome, ghost nodes: map<string, DataModel>)
    requires ValidGraph(g) && DistinctKeys(g) && root in g
    ensures r.Built? <==> forall o :: o in g && Reachable(g, root, o) ==> g[o].hasModel && g[o].key.Some?
    ensures r.Built? ==> IsFullCopy(g, root, nodes) && fresh(set k | k in nodes :: nodes[k])
    ensures r.Built? ==> Known(g, root, nodes) && r.dm == nodes[g[root].key.value]
    ensures r.Built? ==> forall o :: o in g && Reachable(g, root, o) ==>
              Known(g, o, nodes) && Mirrors(g, g[o], nodes[g[o].key.value], nodes)
  {
    hide IsPath, Reachable, CopiedUpTo, GainedCopies, PointsAt, ValidGraph, IsCopy, Columns, Targets, DistinctKeys, IsFullCopy, Mirrors;
    var memo := new GraphNodes();
    r := ToDataModel(g, root, memo);
    nodes := memo.nodes;
    if r.Built? {
      FullCopy(g, root, nodes);
      AllMirror(g, root, nodes);
    }
  }

  // ---- the copy is indistinguishable from the source however far references are followed

  /** One step along a reference: an attribute, or one item of a list attribute. */
  datatype Hop = Hop(name: string, index: Option<nat>)

  predicate AttrLeads(attr: Attr, index: Option<nat>, p: Oid) {
    match index
    case None => attr == Single(p)
    case Some(j) => attr.Many? && j < |attr.items| && attr.items[j] == Entity(p)
  }

  ghost predicate SourceHop(g: Graph, o: Oid, hop: Hop, p: Oid) {
    o in g && exists i :: 0 <= i < |g[o].attrs| && g[o].attrs[i].0 == hop.name && AttrLeads(g[o].attrs[i].1, hop.index, p)
  }

  ghost predicate CopyHop(d: DataModel, hop: Hop, e: DataModel)
    reads d
  {
    hop.name in d.attrs && match hop.index
      case None => d.attrs[hop.name] == DmRef(e)
      case Some(j) => d.attrs[hop.name].DmList? && j < |d.attrs[hop.name].items| && d.attrs[hop.name].items[j] == DmEntity(e)
  }

  lemma HopForth(g: Graph, o: Oid, hop: Hop, p: Oid, d: DataModel, nodes: map<string, DataModel>)
    requires IsCopy(g, o, d, nodes) && SourceHop(g, o, hop, p)
    ensures Known(g, p, nodes) && CopyHop(d, hop, nodes[ItemKey(g, p).value])
  {
    var i :| 0 <= i < |g[o].attrs| && g[o].attrs[i].0 == hop.name && AttrLeads(g[o].attrs[i].1, hop.index, p);
    assert AttrCopied(g, g[o].attrs[i].0, g[o].attrs[i].1, d.attrs, g[o].columns, nodes);
    if hop.index.Some? {
      assert ItemCopied(g, g[o].attrs[i].1.items[hop.index.value], d.attrs[hop.name].items[hop.index.value], nodes);
    }
  }

  lemma HopBack(g: Graph, o: Oid, hop: Hop, d: DataModel, e: DataModel, nodes: map<string, DataModel>) returns (p: Oid)
    requires IsCopy(g, o, d, nodes) && CopyHop(d, hop, e)
    ensures SourceHop(g, o, hop, p) && Known(g, p, nodes) && e == nodes[ItemKey(g, p).value]
  {
    var row := g[o];
    assert (forall i :: 0 <= i < |row.attrs| ==> row.attrs[i].0 != hop.name) ==> SameAt(hop.name, d.attrs, Columns(row.columns));
    var i :| 0 <= i < |row.attrs| && row.attrs[i].0 == hop.name;
    assert AttrCopied(g, row.attrs[i].0, row.attrs[i].1, d.attrs, row.columns, nodes);
    match row.attrs[i].1
    case Single(q) =>
      p := q;
      assert AttrLeads(row.attrs[i].1, hop.index, p);
    case Many(items) =>
      var j := hop.index.value;
      assert ItemCopied(g, items[j], d.attrs[hop.name].items[j], nodes);
      p := items[j].oid;
      assert AttrLeads(row.attrs[i].1, hop.index, p);
  }

  ghost predicate SourceWalk(g: Graph, hops: seq<Hop>, stops: seq<Oid>) {
    |stops| == |hops| + 1 && forall i :: 0 <= i < |hops| ==> SourceHop(g, stops[i], hops[i], stops[i + 1])
  }

  ghost predicate CopyWalk(hops: seq<Hop>, stops: seq<DataModel>)
    reads set i | 0 <= i < |stops| :: stops[i]
  {
    |stops| == |hops| + 1 && forall i :: 0 <= i < |hops| ==> CopyHop(stops[i], hops[i], stops[i + 1])
  }

  /** Stop by stop, the copies of what the source walk visits. */
  ghost predicate SameStops(g: Graph, stops: seq<Oid>, copies: seq<DataModel>, nodes: map<string, DataModel>) {
    |stops| == |copies| && forall i :: 0 <= i < |stops| ==> Known(g, stops[i], nodes) && copies[i] == nodes[ItemKey(g, stops[i]).value]
  }

  /** Any walk along references in the source can be taken in the copy ... */
  lemma {:induction false} WalkForth(g: Graph, root: Oid, hops: seq<Hop>, stops: seq<Oid>, nodes: map<string, DataModel>)
    returns (copies: seq<DataModel>)
    requires IsFullCopy(g, root, nodes) && Known(g, root, nodes)
    requires SourceWalk(g, hops, stops) && stops[0] == root
    ensures SameStops(g, stops, copies, nodes) && CopyWalk(hops, copies)
  {
    hide IsCopy;
    if hops == [] {
      copies := [nodes[g[root].key.value]];
    } else {
      var n := |hops| - 1;
      var init := WalkForth(g, root, hops[..n], stops[..n + 1], nodes);
      HopForth(g, stops[n], hops[n], stops[n + 1], init[n], nodes);
      copies := init + [nodes[ItemKey(g, stops[n + 1]).value]];
      forall i | 0 <= i < |hops|
        ensures CopyHop(copies[i], hops[i], copies[i + 1])
      {
        if i < n {
          assert CopyHop(init[i], hops[..n][i], init[i + 1]);
        }
      }
    }
  }

  /** ... and any walk in the copy follows one in the source, through copies of the same objects. */
  lemma {:induction false} WalkBack(g: Graph, root: Oid, hops: seq<Hop>, copies: seq<DataModel>, nodes: map<string, DataModel>)
    returns (stops: seq<Oid>)
    requires IsFullCopy(g, root, nodes) && Known(g, root, nodes)
    requires CopyWalk(hops, copies) && copies[0] == nodes[g[root].key.value]
    ensures SourceWalk(g, hops, stops) && stops[0] == root && SameStops(g, stops, copies, nodes)
  {
    hide IsCopy;
    if hops == [] {
      stops := [root];
    } else {
      var n := |hops| - 1;
      var init := WalkBack(g, root, hops[..n], copies[..n + 1], nodes);
      var p := HopBack(g, init[n], hops[n], copies[n], copies[n + 1], nodes);
      stops := init + [p];
      forall i | 0 <= i < |hops|
        ensures SourceHop(g, stops[i], hops[i], stops[i + 1])
      {
        if i < n {
          assert SourceHop(g, init[i], hops[..n][i], init[i + 1]);
        }
      }
    }
  }
}
