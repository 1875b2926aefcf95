/** ToDictMixin.to_dict turns an object, and with recurse set the cyclic graph
    behind it, into nested dictionaries.
 */
module ToDict {
  import opened Wrappers

  type Ref = nat

  /** A class of data models, numbered. */
  type Class = nat

  datatype Scalar = Plain(text: string) | DateTime(moment: int) | Bytes(octets: seq<int>)

  datatype Value = Null | Atom(scalar: Scalar) | Model(ref: Ref) | List(items: seq<Value>)

  datatype Named<T> = Named(name: string, value: T)

  /** An object: its class, its __dict__, and for a class with a to_dict of its own
      (SNI, ListenerCidr) the few attributes that one returns.
   */
  datatype Entity = Entity(cls: Class, fields: seq<Named<Value>>, brief: Option<seq<string>>)

  type Graph = map<Ref, Entity>

  /** What is returned.  Text stands for a scalar made serialisable: isoformat() of a
      moment, decode() of bytes.  Same holds a value that is passed on as it is.
   */
  datatype Out =
    | Nothing
    | Text(of: Scalar)
    | Same(value: Value)
    | Items(items: seq<Out>)
    | Dict(entries: seq<Named<Out>>)

  predicate InGraph(g: Graph, v: Value) {
    match v
    case Null => true
    case Atom(_) => true
    case Model(r) => r in g
    case List(items) => forall i :: 0 <= i < |items| ==> InGraph(g, items[i])
  }

  predicate DistinctNames(fields: seq<Named<Value>>) {
    forall i, j :: 0 <= i < j < |fields| ==> fields[i].name != fields[j].name
  }

  ghost predicate Closed(g: Graph) {
    forall r :: r in g ==>
      DistinctNames(g[r].fields) && forall i :: 0 <= i < |g[r].fields| ==> InGraph(g, g[r].fields[i].value)
  }

  function Classes(g: Graph): set<Class> { set r | r in g :: g[r].cls }

  // What the two methods compute.

  /** An attribute is left out when its name starts with an underscore or the caller asked for it. */
  predicate Shown(name: string, without: set<string>) {
    !("_" <= name) && name !in without
  }

  function Converted(s: Scalar): Out {
    if s.Plain? then Same(Atom(s)) else Text(s)
  }

  /** _to_dict on an object of class cls. */
  function ValueOut(g: Graph, cls: Class, v: Value, calling: set<Class>, recurse: bool): Out
    requires Closed(g) && InGraph(g, v) && cls in Classes(g)
    decreases |Classes(g) - calling|, 0, v
  {
    match v
    case Null => Nothing
    case Atom(s) => Converted(s)
    case Model(r) =>
      if recurse && cls !in calling then
        assert Classes(g) - (calling + {cls}) < Classes(g) - calling;
        Smaller(Classes(g) - (calling + {cls}), Classes(g) - calling);
        DictOut(g, r, calling + {cls}, recurse, {})
      else Nothing
    case List(items) =>
      if !recurse then Items([])
      else if cls in calling && HoldsModel(items) then Nothing
      else Items(ItemsOut(g, cls, items, calling))
  }

  predicate HoldsModel(items: seq<Value>) {
    exists i :: 0 <= i < |items| && items[i].Model?
  }

  function ItemsOut(g: Graph, cls: Class, items: seq<Value>, calling: set<Class>): (outs: seq<Out>)
    requires Closed(g) && cls in Classes(g)
    requires forall i :: 0 <= i < |items| ==> InGraph(g, items[i])
    ensures |outs| == |items|
    ensures forall i :: 0 <= i < |items| ==> outs[i] == ValueOut(g, cls, items[i], calling, true)
    decreases |Classes(g) - calling|, 0, items
  {
    if items == [] then []
    else [ValueOut(g, cls, items[0], calling, true)] + ItemsOut(g, cls, items[1..], calling)
  }

  lemma Smaller(a: set<Class>, b: set<Class>)
    requires a < b
    ensures |a| < |b|
  {
    var rest := b - a;
    assert b == a + rest;
    assert rest != {};
  }

  /** to_dict */
  function DictOut(g: Graph, r: Ref, calling: set<Class>, recurse: bool, without: set<string>): (out: Out)
    requires Closed(g) && r in g
    ensures out.Dict?
    decreases |Classes(g) - calling|, 1
  {
    if g[r].brief.Some? then Dict(BriefOut(g[r].fields, g[r].brief.value))
    else Dict(FieldsOut(g, g[r].cls, g[r].fields, calling, recurse, without))
  }

  function Position<T>(s: seq<Named<T>>, name: string): (i: nat)
    ensures i <= |s|
    ensures i < |s| ==> s[i].name == name
    ensures forall k :: 0 <= k < i ==> s[k].name != name
  {
    if s == [] || s[0].name == name then 0 else 1 + Position(s[1..], name)
  }

  function BriefOut(fields: seq<Named<Value>>, names: seq<string>): seq<Named<Out>> {
    seq(|names|, (i: nat) requires i < |names| =>
      var k := Position(fields, names[i]);
      Named(names[i], if k < |fields| then Same(fields[k].value) else Nothing))
  }

  function FieldOut(g: Graph, cls: Class, f: Named<Value>, calling: set<Class>, recurse: bool): Out
    requires Closed(g) && InGraph(g, f.value) && cls in Classes(g)
    decreases |Classes(g) - calling|, 0, f
  {
    if f.name == "tags" then Same(f.value) else ValueOut(g, cls, f.value, calling, recurse)
  }

  function FieldsOut(g: Graph, cls: Class, fields: seq<Named<Value>>, calling: set<Class>, recurse: bool,
    without: set<string>): seq<Named<Out>>
    requires Closed(g) && cls in Classes(g)
    requires forall i :: 0 <= i < |fields| ==> InGraph(g, fields[i].value)
    decreases |Classes(g) - calling|, 0, fields
  {
    if fields == [] then []
    else
      (if Shown(fields[0].name, without)
       then [Named(fields[0].name, FieldOut(g, cls, fields[0], calling, recurse))] else [])
      + FieldsOut(g, cls, fields[1..], calling, recurse, without)
  }

  // The two methods.

  ghost function Calling(calling: seq<Class>): set<Class> { set c | c in calling }

  /** What one turn of the loop in to_dict adds. */
  lemma FieldsStep(g: Graph, cls: Class, fields: seq<Named<Value>>, i: nat, calling: set<Class>, recurse: bool,
    without: set<string>)
    requires Closed(g) && cls in Classes(g) && i < |fields|
    requires forall k :: 0 <= k < |fields| ==> InGraph(g, fields[k].value)
    ensures FieldsOut(g, cls, fields[i..], calling, recurse, without)
         == (if Shown(fields[i].name, without)
             then [Named(fields[i].name, FieldOut(g, cls, fields[i], calling, recurse))] else [])
            + FieldsOut(g, cls, fields[i + 1..], calling, recurse, without)
  {
    hide FieldOut, Shown;
    assert fields[i..][0] == fields[i] && fields[i..][1..] == fields[i + 1..];
  }

  /** to_dict */
  method ToDict(g: Graph, self: Ref, calling: seq<Class>, recurse: bool, without: set<string>) returns (ret: Out)
    requires Closed(g) && self in g
    ensures ret == DictOut(g, self, Calling(calling), recurse, without)
    decreases |Classes(g) - Calling(calling)|, 1
  {
    hide FieldsOut, Shown;
    var fields := g[self].fields;
    if g[self].brief.Some? {
      return Dict(BriefOut(fields, g[self].brief.value));
    }
    ghost var all := FieldsOut(g, g[self].cls, fields, Calling(calling), recurse, without);
    assert fields[0..] == fields;
    var entries: seq<Named<Out>> := [];
    for i := 0 to |fields|
      invariant entries + FieldsOut(g, g[self].cls, fields[i..], Calling(calling), recurse, without) == all
    {
      var f := fields[i];
      FieldsStep(g, g[self].cls, fields, i, Calling(calling), recurse, without);
      if !Shown(f.name, without) {
        continue;
      }
      if f.name == "tags" {
        entries := entries + [Named(f.name, Same(f.value))];
        continue;
      }
      var out := ConvertValue(g, self, f.value, calling, recurse);
      entries := entries + [Named(f.name, out)];
    }
    assert entries == all by {
      NoFields(g, g[self].cls, Calling(calling), recurse, without);
    }
    ret := Dict(entries);
  }

  lemma NoFields(g: Graph, cls: Class, calling: set<Class>, recurse: bool, without: set<string>)
    requires Closed(g) && cls in Classes(g)
    ensures FieldsOut(g, cls, [], calling, recurse, without) == []
  {
  }

  /** _to_dict */
  method ConvertValue(g: Graph, self: Ref, value: Value, calling: seq<Class>, recurse: bool) returns (ret: Out)
    requires Closed(g) && self in g && InGraph(g, value)
    ensures ret == ValueOut(g, g[self].cls, value, Calling(calling), recurse)
    decreases |Classes(g) - Calling(calling)|, 0, value
  {
    hide Closed, Classes, Calling, DictOut;
    var cls := g[self].cls;
    assert (cls in calling <==> cls in Calling(calling)) && cls in Classes(g) by {
      InCalling(g, self, calling);
    }
    match value
    case Null => ret := Nothing;
    case Atom(s) => ret := Converted(s);
    case Model(r) =>
      if recurse && cls !in calling {
        CallingGrows(g, cls, calling);
        ret := ToDict(g, r, calling + [cls], recurse, {});
      } else {
        ret := Nothing;
      }
    case List(items) =>
      if !recurse {
        return Items([]);
      }
      var outs: seq<Out> := [];
      for i := 0 to |items|
        invariant |outs| == i
        invariant forall k :: 0 <= k < i ==> outs[k] == ValueOut(g, cls, items[k], Calling(calling), true)
        invariant cls in calling ==> forall k :: 0 <= k < i ==> !items[k].Model?
      {
        if items[i].Model? {
          if cls in calling {
            return Nothing;
          }
          CallingGrows(g, cls, calling);
          var out := ToDict(g, items[i].ref, calling + [cls], recurse, {});
          outs := outs + [out];
        } else {
          var out := ConvertValue(g, self, items[i], calling, recurse);
          outs := outs + [out];
        }
      }
      assert outs == ItemsOut(g, cls, items, Calling(calling));
      ret := Items(outs);
  }

  lemma InCalling(g: Graph, self: Ref, calling: seq<Class>)
    requires self in g
    ensures g[self].cls in Classes(g) && (g[self].cls in calling <==> g[self].cls in Calling(calling))
  {
  }

  lemma CallingGrows(g: Graph, cls: Class, calling: seq<Class>)
    requires cls in Classes(g) && cls !in calling
    ensures Calling(calling + [cls]) == Calling(calling) + {cls}
    ensures |Classes(g) - Calling(calling + [cls])| < |Classes(g) - Calling(calling)|
  {
    assert Calling(calling + [cls]) == Calling(calling) + {cls};
    Smaller(Classes(g) - Calling(calling + [cls]), Classes(g) - Calling(calling));
  }

  // Walks through the graph and through the result.

  datatype Step = Attr(name: string) | Index(i: nat)

  /** Following the steps through the result ends at a dictionary. */
  predicate Printed(out: Out, path: seq<Step>) {
    if path == [] then out.Dict?
    else match path[0]
      case Attr(n) =>
        out.Dict? && Position(out.entries, n) < |out.entries|
        && Printed(out.entries[Position(out.entries, n)].value, path[1..])
      case Index(i) =>
        out.Items? && i < |out.items| && Printed(out.items[i], path[1..])
  }

  /** Following the steps from a value through the graph ends at an object. */
  predicate Walks(g: Graph, v: Value, path: seq<Step>)
    requires Closed(g) && InGraph(g, v)
    decreases |path|, 1
  {
    if v.Model? then ObjectWalks(g, v.ref, path, {})
    else v.List? && path != [] && path[0].Index? && path[0].i < |v.items| && Walks(g, v.items[path[0].i], path[1..])
  }

  predicate ObjectWalks(g: Graph, r: Ref, path: seq<Step>, without: set<string>)
    requires Closed(g) && r in g
    decreases |path|, 0
  {
    path == []
    || (g[r].brief.None? && path[0].Attr? && Shown(path[0].name, without) && path[0].name != "tags"
        && var i := Position(g[r].fields, path[0].name);
           i < |g[r].fields| && Walks(g, g[r].fields[i].value, path[1..]))
  }

  /** The classes of the objects that a walk from a value of an object of class cls
      leaves through one of their attributes: cls, then all but the last on the way.
   */
  function Left(g: Graph, cls: Class, v: Value, path: seq<Step>): (left: seq<Class>)
    requires Closed(g) && InGraph(g, v) && Walks(g, v, path)
    ensures |left| > 0 && left[0] == cls
    decreases |path|, 1
  {
    if v.Model? then [cls] + ObjectLeft(g, v.ref, path, {})
    else Left(g, cls, v.items[path[0].i], path[1..])
  }

  function ObjectLeft(g: Graph, r: Ref, path: seq<Step>, without: set<string>): seq<Class>
    requires Closed(g) && r in g && ObjectWalks(g, r, path, without)
    decreases |path|, 0
  {
    if path == [] then []
    else Left(g, g[r].cls, g[r].fields[Position(g[r].fields, path[0].name)].value, path[1..])
  }

  predicate NoneTwice(s: seq<Class>) {
    forall i, j :: 0 <= i < j < |s| ==> s[i] != s[j]
  }

  ghost predicate Fresh(s: seq<Class>, calling: set<Class>) {
    NoneTwice(s) && forall i :: 0 <= i < |s| ==> s[i] !in calling
  }

  lemma FreshStep(cls: Class, rest: seq<Class>, calling: set<Class>)
    ensures Fresh([cls] + rest, calling) <==> cls !in calling && Fresh(rest, calling + {cls})
  {
    var s := [cls] + rest;
    assert forall i :: 0 <= i < |rest| ==> rest[i] == s[i + 1];
    if cls !in calling && Fresh(rest, calling + {cls}) {
      forall i, j | 0 <= i < j < |s| ensures s[i] != s[j] {
        assert s[j] == rest[j - 1];
        if i > 0 {
          assert s[i] == rest[i - 1];
        }
      }
    }
    if Fresh(s, calling) {
      assert s[0] == cls;
      forall i | 0 <= i < |rest| ensures rest[i] !in calling + {cls} {
        assert s[0] != s[i + 1];
      }
      forall i, j | 0 <= i < j < |rest| ensures rest[i] != rest[j] {
        assert s[i + 1] != s[j + 1];
      }
    }
  }

  /** The entry for a name, if it is shown and there is such an attribute. */
  ghost predicate HasEntry(entries: seq<Named<Out>>, name: string, present: bool, out: Out) {
    var k := Position(entries, name);
    (k < |entries| <==> present) && (present ==> entries[k].value == out)
  }

  lemma HasEntryStep(first: Named<Out>, rest: seq<Named<Out>>, name: string, present: bool, out: Out)
    requires first.name != name && HasEntry(rest, name, present, out)
    ensures HasEntry([first] + rest, name, present, out)
  {
    PositionIn(first, rest, name);
  }

  /** The shown attributes and no others have entries, each the output of its value. */
  lemma {:induction false} EntryOf(g: Graph, cls: Class, fields: seq<Named<Value>>, calling: set<Class>, recurse: bool,
    without: set<string>, name: string)
    requires Closed(g) && cls in Classes(g)
    requires forall i :: 0 <= i < |fields| ==> InGraph(g, fields[i].value)
    ensures var i := Position(fields, name);
            HasEntry(FieldsOut(g, cls, fields, calling, recurse, without), name,
                     i < |fields| && Shown(name, without),
                     if i < |fields| then FieldOut(g, cls, fields[i], calling, recurse) else Nothing)
  {
    hide FieldOut, Shown, Classes, Closed, InGraph, HasEntry;
    if fields == [] {
      NoEntry(name);
    } else {
      var f, rest := fields[0], FieldsOut(g, cls, fields[1..], calling, recurse, without);
      EntryOf(g, cls, fields[1..], calling, recurse, without, name);
      var out := FieldOut(g, cls, f, calling, recurse);
      if f.name == name {
        if Shown(name, without) {
          FirstEntry(Named(name, out), rest, name);
        } else {
          assert [] + rest == rest;
          OutOfSight(rest, name, out);
        }
      } else if Shown(f.name, without) {
        HasEntryStep(Named(f.name, out), rest, name, Position(fields[1..], name) < |fields[1..]| && Shown(name, without),
          if Position(fields[1..], name) < |fields[1..]|
          then FieldOut(g, cls, fields[1..][Position(fields[1..], name)], calling, recurse) else Nothing);
      } else {
        assert [] + rest == rest;
      }
    }
  }

  lemma NoEntry(name: string)
    ensures HasEntry([], name, false, Nothing)
  {
  }

  lemma FirstEntry(first: Named<Out>, rest: seq<Named<Out>>, name: string)
    requires first.name == name
    ensures HasEntry([first] + rest, name, true, first.value)
  {
  }

  lemma OutOfSight(rest: seq<Named<Out>>, name: string, out: Out)
    requires exists was :: HasEntry(rest, name, false, was)
    ensures HasEntry(rest, name, false, out)
  {
  }

  lemma PositionIn<T>(first: Named<T>, rest: seq<Named<T>>, name: string)
    ensures Position([first] + rest, name) == if first.name == name then 0 else 1 + Position(rest, name)
  {
    assert ([first] + rest)[1..] == rest;
  }

  lemma {:induction false} ValuePrinted(g: Graph, cls: Class, v: Value, calling: set<Class>, path: seq<Step>)
    requires Closed(g) && InGraph(g, v) && cls in Classes(g)
    ensures Printed(ValueOut(g, cls, v, calling, true), path)
       <==> Walks(g, v, path) && Fresh(Left(g, cls, v, path), calling)
    decreases |path|, 1
  {
    match v
    case Null =>
    case Atom(_) =>
    case Model(r) =>
      if cls !in calling {
        ObjectPrinted(g, r, calling + {cls}, {}, path);
      }
      if Walks(g, v, path) {
        FreshStep(cls, ObjectLeft(g, r, path, {}), calling);
      }
    case List(items) =>
      if path != [] && path[0].Index? && path[0].i < |items| {
        ValuePrinted(g, cls, items[path[0].i], calling, path[1..]);
      }
  }

  lemma {:induction false} ObjectPrinted(g: Graph, r: Ref, calling: set<Class>, without: set<string>, path: seq<Step>)
    requires Closed(g) && r in g
    ensures Printed(DictOut(g, r, calling, true, without), path)
       <==> ObjectWalks(g, r, path, without) && Fresh(ObjectLeft(g, r, path, without), calling)
    decreases |path|, 0
  {
    if path != [] && path[0].Attr? {
      var fields, n := g[r].fields, path[0].name;
      EntryOf(g, g[r].cls, fields, calling, true, without, n);
      var i := Position(fields, n);
      if i < |fields| {
        ValuePrinted(g, g[r].cls, fields[i].value, calling, path[1..]);
      }
    }
  }

  /** On every graph, to_dict(recurse=True) prints the object at the end of a walk
      exactly when no two objects left on the way are of the same class.
   */
  lemma PrintedIffNoClassTwice(g: Graph, r: Ref, without: set<string>, path: seq<Step>)
    requires Closed(g) && r in g
    ensures Printed(DictOut(g, r, {}, true, without), path)
       <==> ObjectWalks(g, r, path, without) && NoneTwice(ObjectLeft(g, r, path, without))
  {
    ObjectPrinted(g, r, {}, without, path);
  }

  lemma {:induction false} LeavesOnlyClasses(g: Graph, cls: Class, v: Value, path: seq<Step>)
    requires Closed(g) && InGraph(g, v) && cls in Classes(g) && Walks(g, v, path)
    ensures forall i :: 0 <= i < |Left(g, cls, v, path)| ==> Left(g, cls, v, path)[i] in Classes(g)
    decreases |path|
  {
    if path != [] {
      if v.Model? {
        var e := g[v.ref];
        var next := e.fields[Position(e.fields, path[0].name)].value;
        LeavesOnlyClasses(g, e.cls, next, path[1..]);
        assert Left(g, cls, v, path) == [cls] + Left(g, e.cls, next, path[1..]);
      } else {
        LeavesOnlyClasses(g, cls, v.items[path[0].i], path[1..]);
      }
    }
  }

  lemma {:induction false} FewFitIn(s: seq<Class>, all: set<Class>)
    requires NoneTwice(s) && forall i :: 0 <= i < |s| ==> s[i] in all
    ensures |s| <= |all|
  {
    if s != [] {
      var last := |s| - 1;
      FewFitIn(s[..last], all - {s[last]});
    }
  }

  /** However the graph turns back on itself, nothing is printed deeper than there are classes. */
  lemma DepthIsBounded(g: Graph, r: Ref, without: set<string>, path: seq<Step>)
    requires Closed(g) && r in g && Printed(DictOut(g, r, {}, true, without), path)
    ensures ObjectWalks(g, r, path, without) && |ObjectLeft(g, r, path, without)| <= |Classes(g)|
  {
    PrintedIffNoClassTwice(g, r, without, path);
    if path != [] {
      var e := g[r];
      LeavesOnlyClasses(g, e.cls, e.fields[Position(e.fields, path[0].name)].value, path[1..]);
    }
    FewFitIn(ObjectLeft(g, r, path, without), Classes(g));
  }

  function OutAt(out: Out, path: seq<Step>): (end: Out)
    requires Printed(out, path)
    ensures end.Dict?
  {
    if path == [] then out
    else match path[0]
      case Attr(n) => OutAt(out.entries[Position(out.entries, n)].value, path[1..])
      case Index(i) => OutAt(out.items[i], path[1..])
  }

  function End(g: Graph, v: Value, path: seq<Step>): (r: Ref)
    requires Closed(g) && InGraph(g, v) && Walks(g, v, path)
    ensures r in g
    decreases |path|, 1
  {
    if v.Model? then ObjectEnd(g, v.ref, path, {}) else End(g, v.items[path[0].i], path[1..])
  }

  function ObjectEnd(g: Graph, r: Ref, path: seq<Step>, without: set<string>): (end: Ref)
    requires Closed(g) && r in g && ObjectWalks(g, r, path, without)
    ensures end in g
    decreases |path|, 0
  {
    if path == [] then r
    else End(g, g[r].fields[Position(g[r].fields, path[0].name)].value, path[1..])
  }

  /** The output at the end of a walk is the dictionary of the object there. */
  ghost predicate ShowsEnd(g: Graph, end: Ref, out: Out, without: set<string>) {
    exists calling :: IsDictOf(g, end, out, calling, without)
  }

  ghost predicate IsDictOf(g: Graph, end: Ref, out: Out, calling: set<Class>, without: set<string>) {
    Closed(g) && end in g && out == DictOut(g, end, calling, true, without)
  }

  lemma {:induction false} ValueShowsEnd(g: Graph, cls: Class, v: Value, calling: set<Class>, path: seq<Step>)
    requires Closed(g) && InGraph(g, v) && cls in Classes(g)
    requires Printed(ValueOut(g, cls, v, calling, true), path)
    ensures Walks(g, v, path) && ShowsEnd(g, End(g, v, path), OutAt(ValueOut(g, cls, v, calling, true), path), {})
    decreases |path|, 1
  {
    ValuePrinted(g, cls, v, calling, path);
    match v
    case Null =>
    case Atom(_) =>
    case Model(r) => ObjectShowsEnd(g, r, calling + {cls}, {}, path);
    case List(items) => ValueShowsEnd(g, cls, items[path[0].i], calling, path[1..]);
  }

  lemma {:induction false} ObjectShowsEnd(g: Graph, r: Ref, calling: set<Class>, without: set<string>, path: seq<Step>)
    requires Closed(g) && r in g && Printed(DictOut(g, r, calling, true, without), path)
    ensures ObjectWalks(g, r, path, without)
    ensures ShowsEnd(g, ObjectEnd(g, r, path, without), OutAt(DictOut(g, r, calling, true, without), path),
                     if path == [] then without else {})
    decreases |path|, 0
  {
    ObjectPrinted(g, r, calling, without, path);
    if path == [] {
      assert IsDictOf(g, r, DictOut(g, r, calling, true, without), calling, without);
    } else {
      var fields, n := g[r].fields, path[0].name;
      EntryOf(g, g[r].cls, fields, calling, true, without, n);
      ValueShowsEnd(g, g[r].cls, fields[Position(fields, n)].value, calling, path[1..]);
    }
  }

  /** Every scalar attribute of a printed object is in its dictionary, made serialisable. */
  lemma PrintedObjectKeepsScalars(g: Graph, r: Ref, without: set<string>, path: seq<Step>, name: string)
    requires Closed(g) && r in g && path != []
    requires Printed(DictOut(g, r, {}, true, without), path)
    ensures ObjectWalks(g, r, path, without)
    ensures var e := g[ObjectEnd(g, r, path, without)];
            var fields := e.fields;
            var i := Position(fields, name);
            e.brief.None? && i < |fields| && fields[i].value.Atom? && Shown(name, {}) && name != "tags" ==>
              var out := OutAt(DictOut(g, r, {}, true, without), path);
              HasEntry(out.entries, name, true, Converted(fields[i].value.scalar))
  {
    ObjectShowsEnd(g, r, {}, without, path);
    var end, out := ObjectEnd(g, r, path, without), OutAt(DictOut(g, r, {}, true, without), path);
    var calling :| IsDictOf(g, end, out, calling, {});
    EntryOf(g, g[end].cls, g[end].fields, calling, true, {}, name);
  }

  // ---- single entries

  /** What stands for a value in a dictionary that does not recurse. */
  ghost predicate IsFlat(v: Value, out: Out) {
    match v
    case Null => out == Nothing
    case Model(_) => out == Nothing
    case List(_) => out == Items([])
    case Atom(Plain(text)) => out == Same(v)
    case Atom(DateTime(moment)) => out == Text(DateTime(moment))
    case Atom(Bytes(octets)) => out == Text(Bytes(octets))
  }

  /** to_dict without recursion: every attribute whose name does not begin with an
      underscore and that the caller wants, objects and lists emptied, tags as they
      are, moments and bytes as text; and nothing else.
   */
  lemma FlatDictionary(g: Graph, r: Ref, calling: set<Class>, without: set<string>, name: string)
    requires Closed(g) && r in g && g[r].brief.None?
    ensures var fields, entries := g[r].fields, DictOut(g, r, calling, false, without).entries;
            var i, k := Position(fields, name), Position(entries, name);
            && (k < |entries| <==> i < |fields| && (name == "" || name[0] != '_') && name !in without)
            && (k < |entries| ==>
                  if name == "tags" then entries[k].value == Same(fields[i].value) else IsFlat(fields[i].value, entries[k].value))
  {
    EntryOf(g, g[r].cls, g[r].fields, calling, false, without, name);
  }

  /** With recursion tags and scalars are no different. */
  lemma ScalarsAndTags(g: Graph, r: Ref, calling: set<Class>, without: set<string>, name: string)
    requires Closed(g) && r in g && g[r].brief.None?
    requires var i := Position(g[r].fields, name);
             i < |g[r].fields| && (name == "tags" || g[r].fields[i].value.Atom? || g[r].fields[i].value.Null?)
    ensures var fields, entries := g[r].fields, DictOut(g, r, calling, true, without).entries;
            var i, k := Position(fields, name), Position(entries, name);
            && (k < |entries| <==> (name == "" || name[0] != '_') && name !in without)
            && (k < |entries| ==>
                  if name == "tags" then entries[k].value == Same(fields[i].value) else IsFlat(fields[i].value, entries[k].value))
  {
    EntryOf(g, g[r].cls, g[r].fields, calling, true, without, name);
  }

  /** A class with a to_dict of its own shows its few attributes as they are, whatever is asked. */
  lemma BriefDictionary(g: Graph, r: Ref, calling: set<Class>, recurse: bool, without: set<string>, j: nat)
    requires Closed(g) && r in g && g[r].brief.Some? && j < |g[r].brief.value|
    requires Position(g[r].fields, g[r].brief.value[j]) < |g[r].fields|
    ensures var names, entries := g[r].brief.value, DictOut(g, r, calling, recurse, without).entries;
            |entries| == |names| && entries[j] == Named(names[j], Same(g[r].fields[Position(g[r].fields, names[j])].value))
  {
  }
}
