/** ScalarListType keeps a list of strings in one text column. */
module ScalarList {
  import opened Text
  import opened Wrappers

  datatype Result<T> = Ok(value: T) | ValueError

  function ProcessBindParam(sep: Separator, value: Option<seq<string>>): Result<Option<string>> {
    match value
    case None => Ok(None)
    case Some(items) =>
      if exists i :: 0 <= i < |items| && Within(sep, items[i]) then ValueError
      else Ok(Some(Join(sep, items)))
  }

  function ProcessResultValue(sep: Separator, value: Option<string>): Option<seq<string>> {
    match value
    case None => None
    case Some(s) => if s == "" then Some([]) else Some(Split(sep, s))
  }

  /** Whatever the column holds, reading it and writing it back changes nothing. */
  lemma ColumnSurvives(sep: Separator, stored: Option<string>)
    ensures ProcessBindParam(sep, ProcessResultValue(sep, stored)) == Ok(stored)
  {
    if stored.Some? && stored.value != "" {
      JoinUndoesSplit(sep, stored.value);
    }
  }

  ghost predicate ComesBack(sep: Separator, value: Option<seq<string>>) {
    var bound := ProcessBindParam(sep, value);
    bound.Ok? ==> ProcessResultValue(sep, bound.value) == value
  }

  /** With an unbordered separator, such as any single character, the list
      holding one empty string is the only list that is bound and lost. */
  lemma OnlyTheEmptyStringIsLost(sep: Separator, value: Option<seq<string>>)
    requires Unbordered(sep)
    ensures ComesBack(sep, value) <==> value != Some([""])
  {
    if value.Some? && value != Some([""]) && NoneWithin(sep, value.value) && |value.value| > 0 {
      var items := value.value;
      SplitUndoesJoin(sep, items);
      assert Split(sep, "") == [""];
    }
    if value == Some([""]) {
      assert !Within(sep, "");
    }
  }

  /** A longer separator may overlap itself: then some list comes back as another. */
  lemma ListsComeBackIffUnbordered(sep: Separator)
    ensures Unbordered(sep) <==>
            forall items: seq<string> :: items != [""] ==> ComesBack(sep, Some(items))
  {
    if Unbordered(sep) {
      forall items: seq<string> | items != [""] ensures ComesBack(sep, Some(items)) {
        OnlyTheEmptyStringIsLost(sep, Some(items));
      }
    } else {
      var b :| 0 < b < |sep| && sep[..b] == sep[|sep| - b..];
      var x := sep[..|sep| - b];
      var items := [x, ""];
      assert !Within(sep, x) && !Within(sep, "");
      var s := Join(sep, items);
      assert s == x + sep + Join(sep, [""]) == x + sep by {
        assert items[1..] == [""];
      }
      assert s[..|sep|] == x + sep[..b] == sep;
      assert s[0..0 + |sep|] == sep;
      assert At(sep, s, 0);
      assert Split(sep, s)[0] == "";
      assert !ComesBack(sep, Some(items));
    }
  }
}
