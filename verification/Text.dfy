/** Splitting and joining strings as str.split and str.join do, for separators of any length. */
module Text {

  type Separator = s: string | |s| > 0 witness ","

  predicate At(sep: Separator, s: string, i: nat) {
    i + |sep| <= |s| && s[i..i + |sep|] == sep
  }

  /** The test `sep in s`. */
  predicate Within(sep: Separator, s: string) {
    exists i :: 0 <= i <= |s| && At(sep, s, i)
  }

  /** No proper beginning of the separator is also an end of it. */
  predicate Unbordered(sep: Separator) {
    forall b :: 0 < b < |sep| ==> sep[..b] != sep[|sep| - b..]
  }

  predicate NoneWithin(sep: Separator, parts: seq<string>) {
    forall i :: 0 <= i < |parts| ==> !Within(sep, parts[i])
  }

  function FirstAt(sep: Separator, s: string, from: nat): (i: nat)
    requires from <= |s|
    ensures from <= i <= |s|
    ensures i < |s| ==> At(sep, s, i)
    ensures forall k :: from <= k < i ==> !At(sep, s, k)
    decreases |s| - from
  {
    if from == |s| || At(sep, s, from) then from else FirstAt(sep, s, from + 1)
  }

  function Split(sep: Separator, s: string): (parts: seq<string>)
    ensures |parts| > 0
    decreases |s|
  {
    var i := FirstAt(sep, s, 0);
    if i == |s| then [s] else [s[..i]] + Split(sep, s[i + |sep|..])
  }

  function Join(sep: string, parts: seq<string>): string {
    if |parts| == 0 then ""
    else if |parts| == 1 then parts[0]
    else parts[0] + sep + Join(sep, parts[1..])
  }

  lemma BeginningIsFree(sep: Separator, s: string, i: nat)
    requires i <= |s| && forall k :: 0 <= k < i ==> !At(sep, s, k)
    ensures !Within(sep, s[..i])
  {
    forall k: nat | k <= i ensures !At(sep, s[..i], k) {
      if At(sep, s[..i], k) {
        assert s[..i][k..k + |sep|] == s[k..k + |sep|];
        assert At(sep, s, k);
      }
    }
  }

  lemma NoneWithinGrows(sep: Separator, first: string, rest: seq<string>)
    requires !Within(sep, first) && NoneWithin(sep, rest)
    ensures NoneWithin(sep, [first] + rest)
  {
  }

  lemma {:induction false} JoinUndoesSplit(sep: Separator, s: string)
    ensures Join(sep, Split(sep, s)) == s
    ensures NoneWithin(sep, Split(sep, s))
    decreases |s|
  {
    hide Within, NoneWithin;
    var i := FirstAt(sep, s, 0);
    BeginningIsFree(sep, s, i);
    if i < |s| {
      var rest := s[i + |sep|..];
      JoinUndoesSplit(sep, rest);
      NoneWithinGrows(sep, s[..i], Split(sep, rest));
      assert Split(sep, s)[1..] == Split(sep, rest);
      assert s == s[..i] + s[i..i + |sep|] + rest;
    } else {
      assert s[..i] == s;
      NoneWithinGrows(sep, s, []);
      assert [s] + [] == [s];
    }
  }

  /** An occurrence that begins in x and runs into the separator is a border. */
  lemma OverlapIsBorder(sep: Separator, x: string, rest: string, k: nat)
    requires k < |x| < k + |sep| && At(sep, x + sep + rest, k)
    ensures sep[..k + |sep| - |x|] == sep[|x| - k..]
  {
    var t := x + sep + rest;
    var b := k + |sep| - |x|;
    assert t[k..k + |sep|][|sep| - b..] == t[|x|..|x| + b];
    assert t[|x|..|x| + b] == sep[..b];
  }

  lemma SeparatorIsFirst(sep: Separator, x: string, rest: string)
    requires Unbordered(sep) && !Within(sep, x)
    ensures FirstAt(sep, x + sep + rest, 0) == |x|
  {
    var t := x + sep + rest;
    assert At(sep, t, |x|);
    forall k | 0 <= k < |x| ensures !At(sep, t, k) {
      if At(sep, t, k) {
        if k + |sep| <= |x| {
          assert x[k..k + |sep|] == t[k..k + |sep|];
          assert At(sep, x, k);
        } else {
          OverlapIsBorder(sep, x, rest, k);
        }
      }
    }
  }

  lemma {:induction false} SplitUndoesJoin(sep: Separator, parts: seq<string>)
    requires Unbordered(sep) && |parts| > 0 && NoneWithin(sep, parts)
    ensures Split(sep, Join(sep, parts)) == parts
  {
    var s := Join(sep, parts);
    var x := parts[0];
    if |parts| == 1 {
      assert FirstAt(sep, s, 0) == |s|;
    } else {
      var rest := Join(sep, parts[1..]);
      SeparatorIsFirst(sep, x, rest);
      assert s == x + sep + rest;
      assert s[..|x|] == x && s[|x| + |sep|..] == rest;
      SplitUndoesJoin(sep, parts[1..]);
      assert parts == [x] + parts[1..];
    }
  }

  lemma {:induction false} JoinAppend(sep: string, a: seq<string>, b: seq<string>)
    requires |a| > 0 && |b| > 0
    ensures Join(sep, a + b) == Join(sep, a) + sep + Join(sep, b)
  {
    assert (a + b)[1..] == a[1..] + b;
    if |a| > 1 {
      JoinAppend(sep, a[1..], b);
    }
  }

  lemma SplitAppend(sep: Separator, a: string, b: string)
    requires Unbordered(sep)
    ensures Split(sep, a + sep + b) == Split(sep, a) + Split(sep, b)
  {
    JoinUndoesSplit(sep, a);
    JoinUndoesSplit(sep, b);
    JoinAppend(sep, Split(sep, a), Split(sep, b));
    SplitUndoesJoin(sep, Split(sep, a) + Split(sep, b));
  }
}
