/** Lists as the program uses them: remove, append and insert, mostly without repeats. */
module Sequences {

  /** list.remove: drops the first occurrence. */
  function Remove<T(==)>(s: seq<T>, x: T): seq<T> {
    if s == [] then [] else if s[0] == x then s[1..] else [s[0]] + Remove(s[1..], x)
  }

  ghost predicate NoRepeats<T>(s: seq<T>) {
    forall i, j :: 0 <= i < j < |s| ==> s[i] != s[j]
  }

  lemma {:induction false} RemoveDropsOne<T>(s: seq<T>, x: T)
    requires NoRepeats(s)
    ensures NoRepeats(Remove(s, x))
    ensures forall y :: y in Remove(s, x) <==> y in s && y != x
  {
    if s != [] && s[0] != x {
      var rest := s[1..];
      assert s == [s[0]] + rest;
      assert forall i :: 0 <= i < |rest| ==> rest[i] == s[i + 1];
      RemoveDropsOne(rest, x);
      assert s[0] !in rest;
    } else if s != [] {
      assert s == [s[0]] + s[1..];
    }
  }

  lemma {:induction false} RemoveMember<T>(s: seq<T>, x: T, y: T)
    ensures y in Remove(s, x) ==> y in s
    ensures y != x ==> (y in Remove(s, x) <==> y in s)
    ensures NoRepeats(s) ==> x !in Remove(s, x)
  {
    if s != [] && s[0] != x {
      assert s == [s[0]] + s[1..];
      RemoveMember(s[1..], x, y);
    }
  }

  lemma AppendAddsOne<T>(s: seq<T>, x: T)
    requires NoRepeats(s) && x !in s
    ensures NoRepeats(s + [x])
    ensures forall y :: y in s + [x] <==> y in s || y == x
  {
  }

  /** list.insert: an index past the end appends. */
  function Insert<T>(s: seq<T>, i: nat, x: T): seq<T> {
    if i >= |s| then s + [x] else s[..i] + [x] + s[i..]
  }

  lemma MovedWithin<T>(s: seq<T>, i: nat, x: T)
    requires NoRepeats(s) && x in s
    ensures NoRepeats(Insert(Remove(s, x), i, x))
    ensures forall y :: y in Insert(Remove(s, x), i, x) <==> y in s
  {
    var r := Remove(s, x);
    RemoveDropsOne(s, x);
    var t := Insert(r, i, x);
    if i < |r| {
      assert r == r[..i] + r[i..];
      assert forall y :: y in t <==> y in r[..i] || y == x || y in r[i..];
      assert forall y :: y in r <==> y in r[..i] || y in r[i..];
    } else {
      AppendAddsOne(r, x);
    }
  }

  /** The first occurrence goes and nothing else moves. */
  lemma {:induction false} RemovedFrom<T>(before: seq<T>, x: T, after: seq<T>)
    requires x !in before
    ensures Remove(before + [x] + after, x) == before + after
  {
    var s := before + [x] + after;
    if before == [] {
      assert s == [x] + after;
    } else {
      assert s[1..] == before[1..] + [x] + after;
      RemovedFrom(before[1..], x, after);
    }
  }

  /** The element is at the index, or last; the others stay in order. */
  lemma InsertedAt<T>(s: seq<T>, i: nat, x: T)
    ensures var t, k := Insert(s, i, x), if i <= |s| then i else |s|;
            |t| == |s| + 1 && t[k] == x && t[..k] == s[..k] && t[k + 1..] == s[k..]
  {
  }
}
