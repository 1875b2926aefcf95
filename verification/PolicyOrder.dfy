/** Positions of the L7 policies of one listener: rows with a position column,
    read back as a list in that order, changed in place and renumbered.
 */
module PolicyOrder {
  import opened Sequences
  import opened Wrappers

  type Id = string

  const MAX_POLICY_POSITION: nat := 2147483647

  // ---- lists of policies

  /** list.pop(index). */
  function Without(s: seq<Id>, i: nat): (r: seq<Id>)
    requires i < |s|
    ensures |r| == |s| - 1
  {
    s[..i] + s[i + 1..]
  }

  /** list.insert(position - 1): past the end it appends. */
  function InsertAt(s: seq<Id>, position: nat, x: Id): (r: seq<Id>)
    requires position >= 1
    ensures |r| == |s| + 1
  {
    Insert(s, position - 1, x)
  }

  function Capped(position: nat, n: nat): nat {
    if position <= n then position else n
  }

  /** The inserted policy is at the requested place, or last; the others keep their order. */
  lemma InsertedInPlace(s: seq<Id>, position: nat, x: Id)
    requires position >= 1
    ensures InsertAt(s, position, x)[Capped(position, |s| + 1) - 1] == x
    ensures Without(InsertAt(s, position, x), Capped(position, |s| + 1) - 1) == s
  {
  }

  lemma InsertKeepsDistinct(s: seq<Id>, position: nat, x: Id)
    requires position >= 1 && NoRepeats(s) && x !in s
    ensures NoRepeats(InsertAt(s, position, x))
    ensures forall y :: y in InsertAt(s, position, x) <==> y in s || y == x
  {
    var r := InsertAt(s, position, x);
    if position - 1 < |s| {
      assert s == s[..position - 1] + s[position - 1..];
      assert forall y :: y in r <==> y in s[..position - 1] || y == x || y in s[position - 1..];
      assert forall y :: y in s <==> y in s[..position - 1] || y in s[position - 1..];
    }
  }

  lemma WithoutKeepsDistinct(s: seq<Id>, i: nat)
    requires i < |s| && NoRepeats(s)
    ensures NoRepeats(Without(s, i))
    ensures forall y :: y in Without(s, i) <==> y in s && y != s[i]
  {
    var r := Without(s, i);
    assert s == s[..i] + [s[i]] + s[i + 1..];
    assert forall y :: y in s <==> y in s[..i] || y == s[i] || y in s[i + 1..];
  }

  // ---- the rows

  /** The list names each policy once. */
  ghost predicate Lists(rows: map<Id, nat>, s: seq<Id>) {
    NoRepeats(s) && forall x :: x in s <==> x in rows
  }

  /** The list is what the ORM loads: all policies, ordered by position. */
  ghost predicate IsLoaded(rows: map<Id, nat>, s: seq<Id>) {
    && Lists(rows, s)
    && forall i, j :: 0 <= i < j < |s| ==> rows[s[i]] <= rows[s[j]]
  }

  ghost predicate IsNumbered(rows: map<Id, nat>, s: seq<Id>) {
    && Lists(rows, s)
    && forall i :: 0 <= i < |s| ==> rows[s[i]] == i + 1
  }

  ghost predicate DistinctPositions(rows: map<Id, nat>) {
    forall x, y :: x in rows && y in rows && x != y ==> rows[x] != rows[y]
  }

  lemma SameFirst(rows: map<Id, nat>, s: seq<Id>, t: seq<Id>)
    requires IsLoaded(rows, s) && IsLoaded(rows, t) && DistinctPositions(rows)
    requires s != [] && t != []
    ensures s[0] == t[0]
  {
    assert t[0] in s && s[0] in t;
    FirstIsLeast(rows, s, t[0]);
    FirstIsLeast(rows, t, s[0]);
  }

  lemma SameEmptiness(rows: map<Id, nat>, s: seq<Id>, t: seq<Id>)
    requires IsLoaded(rows, s) && IsLoaded(rows, t)
    ensures s == [] <==> t == []
  {
    if s != [] {
      assert s[0] in t;
    }
    if t != [] {
      assert t[0] in s;
    }
  }

  /** Distinct positions admit one order only. */
  lemma {:induction false} SortedUnique(rows: map<Id, nat>, s: seq<Id>, t: seq<Id>)
    requires IsLoaded(rows, s) && IsLoaded(rows, t) && DistinctPositions(rows)
    ensures s == t
    decreases |s|
  {
    hide IsLoaded;
    SameEmptiness(rows, s, t);
    if s != [] {
      SameFirst(rows, s, t);
      var rest := map x | x in rows && x != s[0] :: rows[x];
      RestIsLoaded(rows, s, rest);
      RestIsLoaded(rows, t, rest);
      SortedUnique(rest, s[1..], t[1..]);
      assert s == [s[0]] + s[1..] && t == [t[0]] + t[1..];
    }
  }

  lemma FirstIsLeast(rows: map<Id, nat>, s: seq<Id>, x: Id)
    requires IsLoaded(rows, s) && x in s
    ensures s[0] in rows && x in rows && rows[s[0]] <= rows[x]
  {
    var i :| 0 <= i < |s| && s[i] == x;
  }

  lemma RestIsLoaded(rows: map<Id, nat>, s: seq<Id>, rest: map<Id, nat>)
    requires IsLoaded(rows, s) && s != []
    requires rest == map x | x in rows && x != s[0] :: rows[x]
    ensures IsLoaded(rest, s[1..])
  {
    var t := s[1..];
    forall x
      ensures x in t <==> x in s && x != s[0]
    {
      if x in t {
        var i :| 0 <= i < |t| && t[i] == x;
        assert s[i + 1] == x;
      }
      if x in s && x != s[0] {
        var i :| 0 <= i < |s| && s[i] == x;
        assert t[i - 1] == x;
      }
    }
    assert Lists(rest, t);
    forall i, j | 0 <= i < j < |t|
      ensures rest[t[i]] <= rest[t[j]]
    {
      assert t[i] == s[i + 1] && t[j] == s[j + 1];
    }
  }

  class Policies {
    var rows: map<Id, nat>
    ghost var order: seq<Id>

    /** Positions are 1 to n in the order of the list. */
    ghost predicate Valid()
      reads this
    {
      IsNumbered(rows, order)
    }

    constructor ()
      ensures Valid() && order == []
    {
      rows := map[];
      order := [];
    }

    /** SELECT ... ORDER BY position. */
    method Load() returns (s: seq<Id>)
      ensures IsLoaded(rows, s)
    {
      s := [];
      var rest := rows.Keys;
      while rest != {}
        invariant rest <= rows.Keys && NoRepeats(s)
        invariant forall x :: x in rows <==> x in s || x in rest
        invariant forall x :: x in s ==> x !in rest
        invariant forall i, j :: 0 <= i < j < |s| ==> rows[s[i]] <= rows[s[j]]
        invariant forall x, y :: x in s && y in rest ==> rows[x] <= rows[y]
        decreases rest
      {
        LeastExists(rows, rest);
        var m :| m in rest && forall y :: y in rest ==> rows[m] <= rows[y];
        s := s + [m];
        rest := rest - {m};
      }
    }

    /** reorder: numbers the rows in the order of the list. */
    method Reorder(s: seq<Id>)
      requires Lists(rows, s)
      modifies this
      ensures rows.Keys == old(rows).Keys
      ensures Valid() && order == s
    {
      ghost var keys := rows.Keys;
      for i := 0 to |s|
        invariant rows.Keys == keys
        invariant forall j :: 0 <= j < i ==> rows[s[j]] == j + 1
      {
        rows := rows[s[i] := i + 1];
      }
      order := s;
    }

    method Create(id: Id, position: Option<nat>)
      requires Valid() && id !in rows && |order| + 1 < MAX_POLICY_POSITION
      requires position.Some? ==> position.value >= 1
      modifies this
      ensures Valid()
      ensures order == if position.None? then old(order) + [id] else InsertAt(old(order), position.value, id)
    {
      ghost var n := |order|;
      rows := rows[id := MAX_POLICY_POSITION];
      var l7policies := Load();
      LoadedWithLast(rows, order, id, l7policies);
      if position.Some? && position.value < |l7policies| + 1 {
        var last := l7policies[|l7policies| - 1];
        l7policies := Without(l7policies, |l7policies| - 1);
        assert l7policies == order && last == id;
        InsertKeepsDistinct(l7policies, position.value, last);
        l7policies := InsertAt(l7policies, position.value, last);
      }
      Reorder(l7policies);
    }

    /** The position part of an update; moving to the present position changes nothing. */
    method Update(id: Id, position: Option<nat>) returns (found: bool)
      requires Valid() && (position.Some? ==> position.value >= 1)
      modifies this
      ensures Valid()
      ensures found <==> id in old(rows)
      ensures !found || position.None? ==> order == old(order) && rows == old(rows)
      ensures found && position.Some? ==>
                && 1 <= old(rows)[id] <= |old(order)| && old(order)[old(rows)[id] - 1] == id
                && order == InsertAt(Without(old(order), old(rows)[id] - 1), position.value, id)
    {
      found := id in rows;
      if !found || position.None? {
        return;
      }
      PositionFindsPolicy(rows, order, id);
      InsertBack(order, rows[id] - 1);
      if position.value != rows[id] {
        Move(id, position.value);
      }
    }

    method Move(id: Id, position: nat)
      requires Valid() && id in rows && position >= 1
      requires 1 <= rows[id] <= |order| && order[rows[id] - 1] == id
      modifies this
      ensures Valid()
      ensures order == InsertAt(Without(old(order), old(rows)[id] - 1), position, id)
    {
      hide IsLoaded, IsNumbered, Lists, InsertAt, Insert, Without, DistinctPositions, NoRepeats;
      NumberedIsLoaded(rows, order);
      MovedIsDistinct(rows, order, rows[id] - 1, position);
      var i := rows[id] - 1;
      var l7policies := Load();
      SortedUnique(rows, l7policies, order);
      var moved := l7policies[i];
      l7policies := Without(l7policies, i);
      l7policies := InsertAt(l7policies, position, moved);
      Reorder(l7policies);
    }

    method Delete(id: Id) returns (found: bool)
      requires Valid()
      modifies this
      ensures Valid()
      ensures found <==> id in old(rows)
      ensures !found ==> order == old(order) && rows == old(rows)
      ensures found ==> 1 <= old(rows)[id] <= |old(order)| && order == Without(old(order), old(rows)[id] - 1) && id !in rows
    {
      found := id in rows;
      if !found {
        return;
      }
      PositionFindsPolicy(rows, order, id);
      ghost var left := Without(order, rows[id] - 1);
      WithoutKeepsDistinct(order, rows[id] - 1);
      LoadedWithout(rows, order, rows[id] - 1, map x | x in rows && x != id :: rows[x]);
      rows := map x | x in rows && x != id :: rows[x];
      var l7policies := Load();
      SortedUnique(rows, l7policies, left);
      Reorder(l7policies);
    }
  }

  lemma LeastExists(rows: map<Id, nat>, s: set<Id>)
    requires s != {} && s <= rows.Keys
    ensures exists m :: m in s && forall y :: y in s ==> rows[m] <= rows[y]
    decreases |s|
  {
    var a :| a in s;
    if s != {a} {
      LeastExists(rows, s - {a});
      var m :| m in s - {a} && forall y :: y in s - {a} ==> rows[m] <= rows[y];
      if rows[a] < rows[m] {
        assert forall y :: y in s ==> rows[a] <= rows[y];
      } else {
        assert forall y :: y in s ==> rows[m] <= rows[y];
      }
    }
  }

  lemma NumberedIsLoaded(rows: map<Id, nat>, s: seq<Id>)
    requires IsNumbered(rows, s)
    ensures IsLoaded(rows, s)
    ensures DistinctPositions(rows)
  {
    forall x, y | x in rows && y in rows && x != y
      ensures rows[x] != rows[y]
    {
      var i :| 0 <= i < |s| && s[i] == x;
      var j :| 0 <= j < |s| && s[j] == y;
    }
  }

  /** pop(position - 1) takes the intended policy. */
  lemma PositionFindsPolicy(rows: map<Id, nat>, s: seq<Id>, id: Id)
    requires IsNumbered(rows, s) && id in rows
    ensures 1 <= rows[id] <= |s| && s[rows[id] - 1] == id
  {
    var i :| 0 <= i < |s| && s[i] == id;
  }

  lemma LoadedWithLast(rows: map<Id, nat>, s: seq<Id>, id: Id, t: seq<Id>)
    requires id !in s && id in rows && rows[id] == MAX_POLICY_POSITION && |s| + 1 < MAX_POLICY_POSITION
    requires IsNumbered(map x | x in rows && x != id :: rows[x], s)
    requires IsLoaded(rows, t)
    ensures t == s + [id]
  {
    var rest := map x | x in rows && x != id :: rows[x];
    NumberedIsLoaded(rest, s);
    forall x | x in rest
      ensures rows[x] < MAX_POLICY_POSITION
    {
      PositionFindsPolicy(rest, s, x);
    }
    hide IsNumbered;
    assert IsLoaded(rows, s + [id]);
    assert forall x, y :: x in rest && y in rest && x != y ==> rest[x] != rest[y];
    assert DistinctPositions(rows);
    SortedUnique(rows, t, s + [id]);
  }

  lemma LoadedWithout(rows: map<Id, nat>, s: seq<Id>, i: nat, rest: map<Id, nat>)
    requires IsNumbered(rows, s) && i < |s|
    requires rest == map x | x in rows && x != s[i] :: rows[x]
    ensures IsLoaded(rest, Without(s, i))
    ensures DistinctPositions(rest)
  {
    WithoutKeepsDistinct(s, i);
    NumberedIsLoaded(rows, s);
  }

  lemma MovedIsDistinct(rows: map<Id, nat>, s: seq<Id>, i: nat, position: nat)
    requires IsNumbered(rows, s) && i < |s| && position >= 1
    ensures Lists(rows, InsertAt(Without(s, i), position, s[i]))
  {
    WithoutKeepsDistinct(s, i);
    InsertKeepsDistinct(Without(s, i), position, s[i]);
  }

  lemma InsertBack(s: seq<Id>, i: nat)
    requires i < |s|
    ensures InsertAt(Without(s, i), i + 1, s[i]) == s
  {
  }
}
