/** Search of the data model graph for an object with a given key: a depth-first
    walk whose list of visited keys is shared by the whole recursion.
 */
module FindInGraph {
  import opened ObjectGraph
  import opened Wrappers

  /** The list _visited_nodes. */
  class Visited {
    var keys: seq<string>

    constructor ()
      ensures keys == []
    {
      keys := [];
    }

    method Append(key: string)
      modifies this
      ensures keys == old(keys) + [key]
    {
      keys := keys + [key];
    }
  }

  datatype Result = Hit(d: DataModel) | Miss | NotImplementedError

  // ---- the graph on the heap

  ghost predicate PointsTo(d: DataModel, e: DataModel)
    reads d
  {
    exists hop :: CopyHop(d, hop, e)
  }

  /** A finite set of objects that contains all it refers to, with one object a key. */
  ghost predicate ValidHeap(G: set<DataModel>)
    reads G
  {
    && (forall d, hop: Hop :: d in G && hop.name in d.attrs ==> HopStays(G, d, hop))
    && (forall d, e :: d in G && e in G && d.key == e.key ==> d == e)
  }

  ghost predicate HopStays(G: set<DataModel>, d: DataModel, hop: Hop)
    requires hop.name in d.attrs
    reads d
  {
    match d.attrs[hop.name]
    case DmRef(e) => hop.index.None? ==> e in G
    case DmList(items) => hop.index.Some? && hop.index.value < |items| && items[hop.index.value].DmEntity? ==>
      items[hop.index.value].entity in G
    case DmValue(_) => true
  }

  ghost predicate ReachIn(G: set<DataModel>, d: DataModel, e: DataModel, n: nat)
    reads G
    decreases n
  {
    d in G && if n == 0 then d == e else exists m :: m in G && PointsTo(d, m) && ReachIn(G, m, e, n - 1)
  }

  ghost predicate Reaches(G: set<DataModel>, d: DataModel, e: DataModel)
    reads G
  {
    exists n: nat :: ReachIn(G, d, e, n)
  }

  lemma ReachesSelf(G: set<DataModel>, d: DataModel)
    requires d in G
    ensures Reaches(G, d, d)
  {
    assert ReachIn(G, d, d, 0);
  }

  lemma ReachesVia(G: set<DataModel>, d: DataModel, m: DataModel, e: DataModel)
    requires d in G && m in G && PointsTo(d, m) && Reaches(G, m, e)
    ensures Reaches(G, d, e)
  {
    var n: nat :| ReachIn(G, m, e, n);
    assert ReachIn(G, d, e, n + 1);
  }

  // ---- what a search leaves in the list

  ghost predicate KeyVisited(d: DataModel, keys: seq<string>) {
    d.key in keys
  }

  /** The objects whose keys the list gained, apart from the one under the key
      open, are not the wanted one and all they refer to is in the list. */
  ghost predicate Explored(G: set<DataModel>, key: string, before: seq<string>, after: seq<string>, open: Option<string>)
    reads G
  {
    forall d :: d in G && KeyVisited(d, after) && !KeyVisited(d, before) && Some(d.key) != open ==>
      && d.searchable && d.key != key
      && forall e :: e in G && PointsTo(d, e) ==> KeyVisited(e, after)
  }

  lemma ExploredMore(G: set<DataModel>, key: string, k0: seq<string>, k1: seq<string>, k2: seq<string>, open: Option<string>)
    requires k0 <= k1 <= k2
    requires Explored(G, key, k0, k1, open) && Explored(G, key, k1, k2, None)
    ensures Explored(G, key, k0, k2, open)
  {
  }

  lemma ExploredSelf(G: set<DataModel>, key: string, self: DataModel, k0: seq<string>, k1: seq<string>)
    requires self in G && self.searchable && self.key != key
    requires forall d, e :: d in G && e in G && d.key == e.key ==> d == e
    requires Explored(G, key, k0, k1, Some(self.key))
    requires forall e :: e in G && PointsTo(self, e) ==> KeyVisited(e, k1)
    ensures Explored(G, key, k0, k1, None)
  {
  }

  ghost function Unvisited(G: set<DataModel>, keys: seq<string>): set<DataModel> {
    set d | d in G && !KeyVisited(d, keys)
  }

  ghost predicate SoundResult(G: set<DataModel>, self: DataModel, key: string, r: Result)
    reads G
  {
    match r
    case Hit(d) => d in G && d.key == key && Reaches(G, self, d)
    case NotImplementedError => exists d :: d in G && Reaches(G, self, d) && !d.searchable
    case Miss => true
  }

  lemma SoundVia(G: set<DataModel>, d: DataModel, m: DataModel, key: string, r: Result)
    requires d in G && m in G && PointsTo(d, m) && SoundResult(G, m, key, r)
    ensures SoundResult(G, d, key, r)
  {
    match r
    case Hit(e) =>
      ReachesVia(G, d, m, e);
    case NotImplementedError =>
      var e :| e in G && Reaches(G, m, e) && !e.searchable;
      ReachesVia(G, d, m, e);
    case Miss =>
  }

  method Find(self: DataModel, key: string, visited: Visited, ghost G: set<DataModel>) returns (r: Result)
    requires self in G && ValidHeap(G)
    modifies visited
    ensures old(visited.keys) <= visited.keys
    ensures SoundResult(G, self, key, r)
    ensures r.Miss? ==> KeyVisited(self, visited.keys) && Explored(G, key, old(visited.keys), visited.keys, None)
    decreases Unvisited(G, visited.keys), 0
  {
    ReachesSelf(G, self);
    if !self.searchable {
      return NotImplementedError;
    }
    if self.key in visited.keys {
      return Miss;
    }
    if self.key == key {
      return Hit(self);
    }
    ghost var k0 := visited.keys;
    visited.Append(self.key);
    var names := self.attrs.Keys;
    while names != {}
      invariant names <= self.attrs.Keys
      invariant k0 <= visited.keys && KeyVisited(self, visited.keys)
      invariant Explored(G, key, k0, visited.keys, Some(self.key))
      invariant forall hop: Hop, e :: hop.name !in names && CopyHop(self, hop, e) ==> KeyVisited(e, visited.keys)
      decreases names
    {
      var name :| name in names;
      assert self in Unvisited(G, k0) && self !in Unvisited(G, visited.keys);
      r := FindInAttr(self, name, key, visited, G, k0);
      if !r.Miss? {
        return;
      }
      names := names - {name};
    }
    r := Miss;
    ExploredSelf(G, key, self, k0, visited.keys);
  }

  method FindInAttr(self: DataModel, name: string, key: string, visited: Visited, ghost G: set<DataModel>,
                    ghost k0: seq<string>) returns (r: Result)
    requires self in G && ValidHeap(G) && name in self.attrs
    requires k0 <= visited.keys && Explored(G, key, k0, visited.keys, Some(self.key))
    modifies visited
    ensures old(visited.keys) <= visited.keys
    ensures SoundResult(G, self, key, r)
    ensures r.Miss? ==> Explored(G, key, k0, visited.keys, Some(self.key))
    ensures r.Miss? ==> forall hop: Hop, e :: hop.name == name && CopyHop(self, hop, e) ==> KeyVisited(e, visited.keys)
    decreases Unvisited(G, visited.keys), 1
  {
    match self.attrs[name]
    case DmValue(_) =>
      r := Miss;
    case DmRef(e) =>
      assert HopStays(G, self, Hop(name, None));
      assert CopyHop(self, Hop(name, None), e);
      ghost var k1 := visited.keys;
      r := Find(e, key, visited, G);
      SoundVia(G, self, e, key, r);
      if r.Miss? {
        ExploredMore(G, key, k0, k1, visited.keys, Some(self.key));
      }
    case DmList(items) =>
      var j := 0;
      ghost var k1 := visited.keys;
      while j < |items|
        invariant 0 <= j <= |items|
        invariant k1 <= visited.keys
        invariant Explored(G, key, k0, visited.keys, Some(self.key))
        invariant forall i :: 0 <= i < j && items[i].DmEntity? ==> KeyVisited(items[i].entity, visited.keys)
      {
        if items[j].DmEntity? {
          var e := items[j].entity;
          assert HopStays(G, self, Hop(name, Some(j)));
          assert CopyHop(self, Hop(name, Some(j)), e);
          ghost var k2 := visited.keys;
          assert Unvisited(G, k2) <= Unvisited(G, k1);
          r := Find(e, key, visited, G);
          SoundVia(G, self, e, key, r);
          if !r.Miss? {
            return;
          }
          ExploredMore(G, key, k0, k2, visited.keys, Some(self.key));
        }
        j := j + 1;
      }
      r := Miss;
  }

  // ---- the search from outside

  lemma {:induction false} ExploredAll(G: set<DataModel>, key: string, keys: seq<string>, d: DataModel, e: DataModel, n: nat)
    requires ValidHeap(G) && e in G
    requires Explored(G, key, [], keys, None) && KeyVisited(d, keys)
    requires ReachIn(G, d, e, n)
    ensures KeyVisited(e, keys) && e.searchable && e.key != key
    decreases n
  {
    if n > 0 {
      var m :| m in G && PointsTo(d, m) && ReachIn(G, m, e, n - 1);
      ExploredAll(G, key, keys, m, e, n - 1);
    }
  }

  /** The call without a list.  It terminates on every graph; a hit is a
      reachable object with the key; a miss means that no reachable object has
      it; an error means that an object without a key is reachable, and for a key
      that is not reachable it occurs whenever there is such an object. */
  method FindFrom(self: DataModel, key: string, ghost G: set<DataModel>) returns (r: Result)
    requires self in G && ValidHeap(G)
    ensures r.Hit? ==> r.d in G && r.d.key == key && Reaches(G, self, r.d)
    ensures r.Miss? ==> forall d :: d in G && Reaches(G, self, d) ==> d.searchable && d.key != key
    ensures r.NotImplementedError? ==> exists d :: d in G && Reaches(G, self, d) && !d.searchable
    ensures (forall d :: d in G && Reaches(G, self, d) ==> d.searchable) ==>
              (r.Hit? <==> exists d :: d in G && Reaches(G, self, d) && d.key == key)
    ensures (forall d :: d in G && Reaches(G, self, d) ==> d.key != key) ==>
              (r.NotImplementedError? <==> exists d :: d in G && Reaches(G, self, d) && !d.searchable)
  {
    var visited := new Visited();
    r := Find(self, key, visited, G);
    if r.Miss? {
      forall d | d in G && Reaches(G, self, d)
        ensures d.searchable && d.key != key
      {
        var n: nat :| ReachIn(G, self, d, n);
        ExploredAll(G, key, visited.keys, self, d, n);
      }
    }
  }

  // ---- searching what a conversion has built

  ghost function Copies(nodes: map<string, DataModel>): set<DataModel> {
    set k | k in nodes :: nodes[k]
  }

  lemma CopiesAreValid(g: Graph, root: Oid, nodes: map<string, DataModel>)
    requires IsFullCopy(g, root, nodes)
    ensures ValidHeap(Copies(nodes))
  {
    hide IsCopy, Reachable;
    var G := Copies(nodes);
    forall d, hop: Hop | d in G && hop.name in d.attrs
      ensures HopStays(G, d, hop)
    {
      var o :| o in g && g[o].key == Some(d.key);
      assert Known(g, o, nodes);
      match d.attrs[hop.name]
      case DmRef(e) =>
        if hop.index.None? {
          var p := HopBack(g, o, hop, d, e, nodes);
        }
      case DmList(items) =>
        if hop.index.Some? && hop.index.value < |items| && items[hop.index.value].DmEntity? {
          var p := HopBack(g, o, hop, d, items[hop.index.value].entity, nodes);
        }
      case DmValue(_) =>
    }
  }

  lemma {:induction false} CopyReachesBack(g: Graph, root: Oid, nodes: map<string, DataModel>, o: Oid, e: DataModel, n: nat) returns (p: Oid)
    requires IsFullCopy(g, root, nodes) && o in g && Known(g, o, nodes)
    requires ReachIn(Copies(nodes), nodes[g[o].key.value], e, n)
    ensures p in g && Known(g, p, nodes) && e == nodes[g[p].key.value]
    decreases n
  {
    hide IsCopy, Reachable;
    if n == 0 {
      p := o;
    } else {
      var d := nodes[g[o].key.value];
      var m :| m in Copies(nodes) && PointsTo(d, m) && ReachIn(Copies(nodes), m, e, n - 1);
      var hop :| CopyHop(d, hop, m);
      var q := HopBack(g, o, hop, d, m, nodes);
      p := CopyReachesBack(g, root, nodes, q, e, n - 1);
    }
  }

  lemma PointsAtIsHop(g: Graph, o: Oid, p: Oid) returns (hop: Hop)
    requires o in g && PointsAt(g[o], p)
    ensures SourceHop(g, o, hop, p)
  {
    var row := g[o];
    var i :| 0 <= i < |row.attrs| && p in Targets(row.attrs[i].1);
    match row.attrs[i].1
    case Single(_) =>
      hop := Hop(row.attrs[i].0, None);
      assert AttrLeads(row.attrs[i].1, hop.index, p);
    case Many(items) =>
      var j :| 0 <= j < |items| && items[j].Entity? && items[j].oid == p;
      hop := Hop(row.attrs[i].0, Some(j));
      assert AttrLeads(row.attrs[i].1, hop.index, p);
  }

  lemma {:induction false} CopyReachesForth(g: Graph, root: Oid, nodes: map<string, DataModel>, o: Oid, path: seq<Oid>, p: Oid)
    requires IsFullCopy(g, root, nodes) && o in g && Known(g, o, nodes)
    requires IsPath(g, o, path, p)
    ensures Known(g, p, nodes) && Reaches(Copies(nodes), nodes[g[o].key.value], nodes[ItemKey(g, p).value])
    decreases |path|
  {
    hide IsCopy, Reachable;
    if path == [] {
      ReachesSelf(Copies(nodes), nodes[g[o].key.value]);
    } else {
      var d := nodes[g[o].key.value];
      var hop := PointsAtIsHop(g, o, path[0]);
      HopForth(g, o, hop, path[0], d, nodes);
      CopyReachesForth(g, root, nodes, path[0], path[1..], p);
      ReachesVia(Copies(nodes), d, nodes[g[path[0]].key.value], nodes[g[p].key.value]);
    }
  }

  /** A key can be found in a converted graph exactly when an object with that
      key is reachable in the database graph it was made from. */
  lemma CopyHasKeyIffSourceHas(g: Graph, root: Oid, nodes: map<string, DataModel>, key: string)
    requires IsFullCopy(g, root, nodes) && root in g && Known(g, root, nodes)
    ensures (exists d :: d in Copies(nodes) && Reaches(Copies(nodes), nodes[g[root].key.value], d) && d.key == key)
       <==> (exists o :: o in g && Reachable(g, root, o) && g[o].key == Some(key))
  {
    hide IsCopy;
    var G, top := Copies(nodes), nodes[g[root].key.value];
    if d :| d in G && Reaches(G, top, d) && d.key == key {
      var n: nat :| ReachIn(G, top, d, n);
      var p := CopyReachesBack(g, root, nodes, root, d, n);
      assert Reachable(g, root, p) && g[p].key == Some(key);
    }
    if o :| o in g && Reachable(g, root, o) && g[o].key == Some(key) {
      var path :| IsPath(g, root, path, o);
      CopyReachesForth(g, root, nodes, root, path, o);
      assert nodes[key].key == key;
    }
  }

  lemma CopiesOfSearchable(g: Graph, root: Oid, nodes: map<string, DataModel>)
    requires IsFullCopy(g, root, nodes) && root in g && Known(g, root, nodes)
    requires forall o :: o in g && Reachable(g, root, o) ==> g[o].searchable
    ensures forall d :: d in Copies(nodes) ==> d.searchable
  {
    forall k | k in nodes
      ensures nodes[k].searchable
    {
      var o :| o in g && g[o].key == Some(k);
      assert Known(g, o, nodes);
    }
  }

  /** The two halves together: a key is found in what the conversion returns exactly
      when an object with that key is reachable in the database graph. */
  method FindInConverted(g: Graph, root: Oid, key: string) returns (r: Option<Result>)
    requires ValidGraph(g) && DistinctKeys(g) && root in g
    ensures r.Some? <==> forall o :: o in g && Reachable(g, root, o) ==> g[o].hasModel && g[o].key.Some?
    ensures r.Some? && r.value.Hit? ==> r.value.d.key == key && fresh(r.value.d)
    ensures r.Some? && (forall o :: o in g && Reachable(g, root, o) ==> g[o].searchable) ==>
              (r.value.Hit? <==> exists o :: o in g && Reachable(g, root, o) && g[o].key == Some(key))
  {
    hide IsFullCopy, Reachable, ValidHeap, Reaches;
    var built, nodes := Convert(g, root);
    if built.NotImplemented? {
      return None;
    }
    CopiesAreValid(g, root, nodes);
    CopyHasKeyIffSourceHas(g, root, nodes, key);
    if forall o :: o in g && Reachable(g, root, o) ==> g[o].searchable {
      CopiesOfSearchable(g, root, nodes);
    }
    var found := FindFrom(built.dm, key, Copies(nodes));
    r := Some(found);
  }
}
