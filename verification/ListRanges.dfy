/** Replacing and removing ranges of a list through calls that remove or insert one element each. */
module ListRanges {

  /** How a call ends: normally, with an exception, or, for a negative count, stopped by the runtime. */
  datatype Ending = Finished | Threw | Trapped

  function Spliced<T>(list: seq<T>, lower: nat, upper: nat, newElements: seq<T>): seq<T>
    requires lower <= upper <= |list|
  {
    list[..lower] + newElements + list[upper..]
  }

  /** Putting back what was there undoes a replacement. */
  lemma {:induction false} SpliceBack<T>(list: seq<T>, lower: nat, upper: nat, newElements: seq<T>)
    requires lower <= upper <= |list|
    ensures var spliced := Spliced(list, lower, upper, newElements);
      && lower + |newElements| <= |spliced|
      && Spliced(spliced, lower, lower + |newElements|, list[lower..upper]) == list
  {
    var spliced := Spliced(list, lower, upper, newElements);
    assert spliced[..lower] == list[..lower];
    assert spliced[lower + |newElements|..] == list[upper..];
    assert list[..lower] + list[lower..upper] + list[upper..] == list;
  }

  /** What a removal that runs past the end leaves: everything from its start on is gone. */
  function Cut<T>(list: seq<T>, lower: int): seq<T> {
    if 0 <= lower < |list| then list[..lower] else list
  }

  class List<T> {
    var elems: seq<T>

    constructor ()
      ensures elems == []
    {
      elems := [];
    }

    method Remove(index: int) returns (ending: Ending)
      modifies this
      ensures if 0 <= index < |old(elems)|
        then ending == Finished && elems == old(elems)[..index] + old(elems)[index + 1..]
        else ending == Threw && elems == old(elems)
    {
      if index < 0 || index >= |elems| {
        return Threw;
      }
      elems := elems[..index] + elems[index + 1..];
      return Finished;
    }

    method Insert(element: T, index: int) returns (ending: Ending)
      modifies this
      ensures if 0 <= index <= |old(elems)|
        then ending == Finished && elems == old(elems)[..index] + [element] + old(elems)[index..]
        else ending == Threw && elems == old(elems)
    {
      if index < 0 || index > |elems| {
        return Threw;
      }
      elems := elems[..index] + [element] + elems[index..];
      return Finished;
    }

    method RemoveSubrange(lower: int, upper: int) returns (ending: Ending)
      requires lower <= upper
      modifies this
      ensures lower == upper ==> ending == Finished && elems == old(elems)
      ensures 0 <= lower < upper <= |old(elems)| ==>
        ending == Finished && elems == Spliced(old(elems), lower, upper, [])
      ensures lower < upper && (lower < 0 || upper > |old(elems)|) ==>
        ending == Threw && elems == Cut(old(elems), lower)
    {
      for i := lower to upper
        invariant i > lower ==> 0 <= lower && i <= |old(elems)|
        invariant i == lower ==> elems == old(elems)
        invariant i > lower ==> elems == old(elems)[..lower] + old(elems)[i..]
      {
        ghost var before := elems;
        ending := Remove(lower);
        if ending.Threw? {
          return;
        }
        assert elems == before[..lower] + before[lower + 1..];
      }
      return Finished;
    }

    method InsertContentsOf(newElements: seq<T>, at: int) returns (ending: Ending)
      modifies this
      ensures newElements == [] ==> ending == Finished && elems == old(elems)
      ensures 0 <= at <= |old(elems)| ==> ending == Finished && elems == Spliced(old(elems), at, at, newElements)
      ensures newElements != [] && (at < 0 || at > |old(elems)|) ==> ending == Threw && elems == old(elems)
    {
      var currentIndex := at;
      for i := 0 to |newElements|
        invariant currentIndex == at + i
        invariant i == 0 ==> elems == old(elems)
        invariant i > 0 ==> 0 <= at <= |old(elems)|
        invariant i > 0 ==> elems == old(elems)[..at] + newElements[..i] + old(elems)[at..]
      {
        ending := Insert(newElements[i], currentIndex);
        if ending.Threw? {
          return;
        }
        currentIndex := currentIndex + 1;
      }
      assert newElements[..|newElements|] == newElements;
      assert newElements == [] && 0 <= at <= |elems| ==> elems == Spliced(elems, at, at, []);
      return Finished;
    }

    /** The new elements are inserted back to front, each at the start of the range. */
    method InsertReversed(newElements: seq<T>, at: int) returns (ending: Ending)
      modifies this
      ensures newElements == [] ==> ending == Finished && elems == old(elems)
      ensures 0 <= at <= |old(elems)| ==> ending == Finished && elems == Spliced(old(elems), at, at, newElements)
      ensures newElements != [] && (at < 0 || at > |old(elems)|) ==> ending == Threw && elems == old(elems)
    {
      var i := |newElements|;
      while i > 0
        invariant 0 <= i <= |newElements|
        invariant i == |newElements| ==> elems == old(elems)
        invariant i < |newElements| ==> 0 <= at <= |old(elems)|
        invariant i < |newElements| ==> elems == old(elems)[..at] + newElements[i..] + old(elems)[at..]
      {
        i := i - 1;
        ending := Insert(newElements[i], at);
        if ending.Threw? {
          return;
        }
        assert newElements[i..] == [newElements[i]] + newElements[i + 1..];
      }
      assert newElements[0..] == newElements;
      assert newElements == [] && 0 <= at <= |elems| ==> elems == Spliced(elems, at, at, []);
      return Finished;
    }

    /**
     * A range inside the list is replaced by the new elements. Any other range throws, unless there
     * is nothing to remove or insert, after removing what lies between its start and the end.
     */
    method ReplaceSubrange(lower: int, upper: int, newElements: seq<T>) returns (ending: Ending)
      requires lower <= upper
      modifies this
      ensures 0 <= lower && upper <= |old(elems)| ==>
        ending == Finished && elems == Spliced(old(elems), lower, upper, newElements)
      ensures lower < 0 || upper > |old(elems)| ==>
        && ending == (if lower == upper && newElements == [] then Finished else Threw)
        && elems == (if lower < upper then Cut(old(elems), lower) else old(elems))
    {
      ending := RemoveSubrange(lower, upper);
      if ending.Threw? {
        return;
      }
      ending := InsertReversed(newElements, lower);
    }

    /** The form for closed ranges, which inserts front to back, does the same. */
    method ReplaceClosedSubrange(lower: int, last: int, newElements: seq<T>) returns (ending: Ending)
      requires lower <= last
      modifies this
      ensures 0 <= lower && last < |old(elems)| ==>
        ending == Finished && elems == Spliced(old(elems), lower, last + 1, newElements)
      ensures lower < 0 || last >= |old(elems)| ==> ending == Threw && elems == Cut(old(elems), lower)
    {
      ending := RemoveSubrange(lower, last + 1);
      if ending.Threw? {
        return;
      }
      ending := InsertContentsOf(newElements, lower);
    }

    method RemoveFirst(number: int) returns (ending: Ending)
      modifies this
      ensures number > |old(elems)| ==> ending == Threw && elems == old(elems)
      ensures number < 0 ==> ending == Trapped && elems == old(elems)
      ensures 0 <= number <= |old(elems)| ==> ending == Finished && elems == old(elems)[number..]
    {
      var count := |elems|;
      if number > count {
        return Threw;
      }
      if number < 0 {
        return Trapped;
      }
      for i := 0 to number
        invariant elems == old(elems)[i..]
      {
        ending := Remove(0);
      }
      return Finished;
    }

    method RemoveLast(number: int) returns (ending: Ending)
      modifies this
      ensures number > |old(elems)| ==> ending == Threw && elems == old(elems)
      ensures number < 0 ==> ending == Trapped && elems == old(elems)
      ensures 0 <= number <= |old(elems)| ==> ending == Finished && elems == old(elems)[..|old(elems)| - number]
    {
      var count := |elems|;
      if number > count {
        return Threw;
      }
      if number < 0 {
        return Trapped;
      }
      for i := 0 to number
        invariant elems == old(elems)[..count - i]
      {
        elems := elems[..|elems| - 1];
      }
      return Finished;
    }
  }
}
