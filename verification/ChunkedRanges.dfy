/** Ranges stored in chunks: the two-level iterator over them, and the iterator over single indexes. */
module ChunkedRanges {

  /** The indexes from first up to, but not including, second. */
  datatype Range = Range(first: nat, second: nat)

  /** A pointer to a range inside a chunk; it may point one past the last range while it moves. */
  datatype Pointer = Null | To(chunk: nat, index: nat)

  /** Where an iterator stands: its chunk and its pointer. */
  datatype Place = Place(outer: nat, inner: Pointer)

  /** The vector never keeps an empty chunk. */
  ghost predicate NoEmptyChunk(data: seq<seq<Range>>) {
    forall i :: 0 <= i < |data| ==> data[i] != []
  }

  ghost predicate Inside(data: seq<seq<Range>>, p: Place) {
    && p.outer < |data|
    && p.inner.To?
    && p.inner.chunk == p.outer
    && p.inner.index < |data[p.outer]|
  }

  ghost predicate Legal(data: seq<seq<Range>>, p: Place) {
    Inside(data, p) || p == End(data)
  }

  function Begin(data: seq<seq<Range>>): Place {
    if data == [] then End(data) else Place(0, To(0, 0))
  }

  function End(data: seq<seq<Range>>): Place {
    Place(|data|, Null)
  }

  // ----- The flat sequence -----

  function Flat(data: seq<seq<Range>>): seq<Range> {
    if data == [] then [] else data[0] + Flat(data[1..])
  }

  /** How many ranges the chunks before this one hold. */
  function Before(data: seq<seq<Range>>, outer: nat): nat
    requires outer <= |data|
  {
    if outer == 0 then 0 else |data[0]| + Before(data[1..], outer - 1)
  }

  function Position(data: seq<seq<Range>>, p: Place): nat
    requires p.outer <= |data|
  {
    Before(data, p.outer) + (if p.inner.To? then p.inner.index else 0)
  }

  lemma {:induction false} BeforeStep(data: seq<seq<Range>>, outer: nat)
    requires outer < |data|
    ensures Before(data, outer + 1) == Before(data, outer) + |data[outer]|
  {
    if outer == 0 {
    } else {
      BeforeStep(data[1..], outer - 1);
    }
  }

  lemma {:induction false} BeforeMonotone(data: seq<seq<Range>>, a: nat, b: nat)
    requires a <= b <= |data|
    ensures Before(data, a) <= Before(data, b)
    decreases b - a
  {
    if a == b {
    } else {
      BeforeStep(data, a);
      BeforeMonotone(data, a + 1, b);
    }
  }

  lemma {:induction false} BeforeAll(data: seq<seq<Range>>)
    ensures Before(data, |data|) == |Flat(data)|
  {
    if data == [] {
    } else {
      BeforeAll(data[1..]);
    }
  }

  lemma {:induction false} FlatAt(data: seq<seq<Range>>, outer: nat, index: nat)
    requires outer < |data| && index < |data[outer]|
    ensures Before(data, outer) + index < |Flat(data)|
    ensures Flat(data)[Before(data, outer) + index] == data[outer][index]
  {
    if outer == 0 {
    } else {
      FlatAt(data[1..], outer - 1, index);
    }
  }

  /** The places of an iterator are the positions of the flat sequence and its end, one for one. */
  lemma {:induction false} PlaceIsPosition(data: seq<seq<Range>>, p: Place, q: Place)
    requires NoEmptyChunk(data) && Legal(data, p) && Legal(data, q)
    ensures Position(data, p) == Position(data, q) <==> p == q
    ensures Inside(data, p) ==>
      Position(data, p) < |Flat(data)| && Flat(data)[Position(data, p)] == data[p.outer][p.inner.index]
    ensures Position(data, End(data)) == |Flat(data)|
    ensures Position(data, Begin(data)) == 0
  {
    BeforeAll(data);
    if Inside(data, p) {
      FlatAt(data, p.outer, p.inner.index);
    }
    if Inside(data, q) {
      FlatAt(data, q.outer, q.inner.index);
    }
    Apart(data, p, q);
    Apart(data, q, p);
  }

  /** A place in an earlier chunk has a smaller position. */
  lemma {:induction false} Apart(data: seq<seq<Range>>, p: Place, q: Place)
    requires NoEmptyChunk(data) && Legal(data, p) && Legal(data, q)
    ensures p.outer < q.outer ==> Position(data, p) < Position(data, q)
  {
    if p.outer < q.outer {
      BeforeStep(data, p.outer);
      BeforeMonotone(data, p.outer + 1, q.outer);
    }
  }

  // ----- Moving -----

  function ChunkAfter(data: seq<seq<Range>>, p: Place): Place {
    Place(p.outer + 1, if p.outer + 1 != |data| then To(p.outer + 1, 0) else Null)
  }

  function Next(data: seq<seq<Range>>, p: Place): Place
    requires p.outer < |data| && p.inner.To?
  {
    if p.inner.index + 1 == |data[p.outer]| then ChunkAfter(data, p)
    else Place(p.outer, To(p.inner.chunk, p.inner.index + 1))
  }

  function Previous(data: seq<seq<Range>>, p: Place): Place
    requires NoEmptyChunk(data) && Legal(data, p) && p != Begin(data)
  {
    if p.inner.Null? || p.inner.index == 0 then Place(p.outer - 1, To(p.outer - 1, |data[p.outer - 1]| - 1))
    else Place(p.outer, To(p.inner.chunk, p.inner.index - 1))
  }

  /** ++ goes to the next position, and -- comes back from there, across chunk edges and from the end. */
  lemma {:induction false} NextMovesOn(data: seq<seq<Range>>, p: Place)
    requires NoEmptyChunk(data) && Inside(data, p)
    ensures var next := Next(data, p);
      && Legal(data, next)
      && Position(data, next) == Position(data, p) + 1
      && next != Begin(data)
      && Previous(data, next) == p
  {
    BeforeStep(data, p.outer);
  }

  /** -- goes to the position before, and ++ comes back from there. */
  lemma {:induction false} PreviousMovesBack(data: seq<seq<Range>>, p: Place)
    requires NoEmptyChunk(data) && Legal(data, p) && p != Begin(data)
    ensures var previous := Previous(data, p);
      && Inside(data, previous)
      && Position(data, previous) + 1 == Position(data, p)
      && Next(data, previous) == p
  {
    var previous := Previous(data, p);
    BeforeStep(data, previous.outer);
  }

  /** Entering the next chunk skips exactly what is left of this one. */
  lemma {:induction false} NextChunkSkips(data: seq<seq<Range>>, p: Place)
    requires NoEmptyChunk(data) && Inside(data, p)
    ensures Legal(data, ChunkAfter(data, p))
    ensures Position(data, ChunkAfter(data, p)) == Position(data, p) + |data[p.outer]| - p.inner.index
  {
    BeforeStep(data, p.outer);
  }

  class ChunkedRangeVectorIterator {
    const data: seq<seq<Range>>
    var outer: nat
    var inner: Pointer

    ghost predicate Valid()
      reads this
    {
      NoEmptyChunk(data) && Legal(data, Here())
    }

    function Here(): Place
      reads this
    {
      Place(outer, inner)
    }

    constructor (data: seq<seq<Range>>, place: Place)
      requires NoEmptyChunk(data) && Legal(data, place)
      ensures Valid() && this.data == data && Here() == place
    {
      this.data := data;
      outer, inner := place.outer, place.inner;
    }

    function Offset(): nat
      requires inner.To?
      reads this
    {
      inner.index
    }

    function Get(): (r: Range)
      requires Valid() && Here() != End(data)
      reads this
      ensures r == data[outer][inner.index]
    {
      data[inner.chunk][inner.index]
    }

    method NextChunk()
      requires outer < |data|
      modifies this
      ensures Here() == ChunkAfter(data, old(Here()))
    {
      outer := outer + 1;
      inner := if outer != |data| then To(outer, 0) else Null;
    }

    method Increment()
      requires Valid() && Here() != End(data)
      modifies this
      ensures Valid() && Here() == Next(data, old(Here()))
    {
      NextMovesOn(data, Here());
      inner := To(inner.chunk, inner.index + 1);
      if Offset() == |data[outer]| {
        NextChunk();
      }
    }

    method Decrement()
      requires Valid() && Here() != Begin(data)
      modifies this
      ensures Valid() && Here() == Previous(data, old(Here()))
    {
      PreviousMovesBack(data, Here());
      if inner.Null? || inner.index == 0 {
        outer := outer - 1;
        inner := To(outer, |data[outer]| - 1);
      } else {
        inner := To(inner.chunk, inner.index - 1);
      }
    }
  }

  /** Going from begin to end by ++ meets the ranges of all chunks, in order. */
  method Traverse(data: seq<seq<Range>>) returns (ranges: seq<Range>)
    requires NoEmptyChunk(data)
    ensures ranges == Flat(data)
  {
    var it := new ChunkedRangeVectorIterator(data, Begin(data));
    ranges := [];
    PlaceIsPosition(data, Begin(data), Begin(data));
    while it.Here() != End(data)
      invariant it.Valid() && it.data == data && fresh(it)
      invariant Position(data, it.Here()) <= |Flat(data)|
      invariant ranges == Flat(data)[..Position(data, it.Here())]
      decreases |Flat(data)| - Position(data, it.Here())
    {
      PlaceIsPosition(data, it.Here(), End(data));
      NextMovesOn(data, it.Here());
      ranges := ranges + [it.Get()];
      it.Increment();
    }
  }

  // ----- Single indexes -----

  ghost predicate NonEmpty(ranges: seq<Range>) {
    forall i :: 0 <= i < |ranges| ==> ranges[i].first < ranges[i].second
  }

  /** Ranges in increasing order that do not overlap. */
  ghost predicate Ordered(ranges: seq<Range>) {
    forall i, j :: 0 <= i < j < |ranges| ==> ranges[i].second <= ranges[j].first
  }

  function Members(r: Range): (s: seq<nat>)
    requires r.first <= r.second
    ensures |s| == r.second - r.first
    ensures forall i :: 0 <= i < |s| ==> s[i] == r.first + i
  {
    seq(r.second - r.first, i => r.first + i)
  }

  function AllMembers(ranges: seq<Range>): seq<nat>
    requires NonEmpty(ranges)
  {
    if ranges == [] then [] else AllMembers(ranges[..|ranges| - 1]) + Members(ranges[|ranges| - 1])
  }

  ghost predicate Covers(ranges: seq<Range>, x: nat) {
    exists i :: 0 <= i < |ranges| && ranges[i].first <= x < ranges[i].second
  }

  lemma {:induction false} CoversLast(ranges: seq<Range>, x: nat)
    requires ranges != []
    ensures var n := |ranges| - 1;
      Covers(ranges, x) <==> Covers(ranges[..n], x) || ranges[n].first <= x < ranges[n].second
  {
    var n := |ranges| - 1;
    if Covers(ranges[..n], x) {
      var i :| 0 <= i < n && ranges[..n][i].first <= x < ranges[..n][i].second;
      assert ranges[i].first <= x < ranges[i].second;
    }
    if Covers(ranges, x) && !(ranges[n].first <= x < ranges[n].second) {
      var i :| 0 <= i < |ranges| && ranges[i].first <= x < ranges[i].second;
      assert ranges[..n][i] == ranges[i];
    }
  }

  /** The members are all the indexes that some range covers. */
  lemma {:induction false} AllMembersCover(ranges: seq<Range>, x: nat)
    requires NonEmpty(ranges)
    ensures x in AllMembers(ranges) <==> Covers(ranges, x)
  {
    if ranges == [] {
    } else {
      var n := |ranges| - 1;
      AllMembersCover(ranges[..n], x);
      CoversLast(ranges, x);
      if ranges[n].first <= x < ranges[n].second {
        assert Members(ranges[n])[x - ranges[n].first] == x;
      }
    }
  }

  /** Over ordered ranges they come in strictly increasing order, so none comes twice. */
  lemma {:induction false} AllMembersIncrease(ranges: seq<Range>)
    requires NonEmpty(ranges) && Ordered(ranges)
    ensures forall i, j :: 0 <= i < j < |AllMembers(ranges)| ==> AllMembers(ranges)[i] < AllMembers(ranges)[j]
  {
    if ranges == [] {
    } else {
      var n := |ranges| - 1;
      var front, last := AllMembers(ranges[..n]), Members(ranges[n]);
      AllMembersIncrease(ranges[..n]);
      forall i | 0 <= i < |front| ensures front[i] < ranges[n].first {
        AllMembersCover(ranges[..n], front[i]);
        assert front[i] in front;
        var k :| 0 <= k < n && ranges[..n][k].first <= front[i] < ranges[..n][k].second;
        assert ranges[k].second <= ranges[n].first;
      }
      assert AllMembers(ranges) == front + last;
    }
  }

  /** Where an index iterator stands. */
  datatype IndexPlace = IndexPlace(place: Place, offset: nat)

  /** The iterators compare equal when their ranges do; the offset is ignored. */
  predicate SameIndex(a: IndexPlace, b: IndexPlace) {
    a.place == b.place
  }

  /** Inside one range two different indexes compare equal, but the end equals nothing else. */
  lemma {:induction false} SameIndexExact(data: seq<seq<Range>>, a: IndexPlace, b: IndexPlace)
    requires NoEmptyChunk(data) && Legal(data, a.place) && Legal(data, b.place)
    ensures SameIndex(a, b) <==> Position(data, a.place) == Position(data, b.place)
    ensures SameIndex(a, b) && a.offset == b.offset <==> a == b
    ensures SameIndex(a, IndexPlace(End(data), 0)) <==> !Inside(data, a.place)
    ensures var wide := [[Range(0, 2)]]; var zero, one := IndexPlace(Begin(wide), 0), IndexPlace(Begin(wide), 1);
      SameIndex(zero, one) && zero != one
  {
    PlaceIsPosition(data, a.place, b.place);
  }

  /** The range an iterator stands on. */
  function RangeAt(data: seq<seq<Range>>, place: Place): Range
    requires Inside(data, place)
  {
    data[place.outer][place.inner.index]
  }

  /** The offset stays inside the range. */
  ghost predicate LegalIndex(data: seq<seq<Range>>, p: IndexPlace) {
    && Legal(data, p.place)
    && if Inside(data, p.place) then p.offset < RangeAt(data, p.place).second - RangeAt(data, p.place).first
       else p.offset == 0
  }

  function NextIndex(data: seq<seq<Range>>, p: IndexPlace): IndexPlace
    requires Inside(data, p.place)
  {
    var range := RangeAt(data, p.place);
    if range.first + p.offset + 1 == range.second then IndexPlace(Next(data, p.place), 0)
    else IndexPlace(p.place, p.offset + 1)
  }

  class IndexIterator {
    const ranges: ChunkedRangeVectorIterator
    var offset: nat

    constructor (ranges: ChunkedRangeVectorIterator)
      ensures this.ranges == ranges && offset == 0
    {
      this.ranges := ranges;
      offset := 0;
    }

    ghost predicate Valid()
      reads this, ranges
    {
      ranges.Valid() && NonEmpty(Flat(ranges.data)) && LegalIndex(ranges.data, Here())
    }

    function Here(): IndexPlace
      reads this, ranges
    {
      IndexPlace(ranges.Here(), offset)
    }

    function Get(): (x: nat)
      requires Valid() && ranges.Here() != End(ranges.data)
      reads this, ranges
      ensures x == RangeAt(ranges.data, ranges.Here()).first + offset
    {
      ranges.Get().first + offset
    }

    method Increment()
      requires Valid() && ranges.Here() != End(ranges.data)
      modifies this, ranges
      ensures Valid() && Here() == NextIndex(ranges.data, old(Here()))
    {
      NextIndexLegal(ranges.data, Here());
      offset := offset + 1;
      if ranges.Get().first + offset == ranges.Get().second {
        ranges.Increment();
        offset := 0;
      }
    }
  }

  lemma {:induction false} NextIndexLegal(data: seq<seq<Range>>, p: IndexPlace)
    requires NoEmptyChunk(data) && NonEmpty(Flat(data)) && LegalIndex(data, p) && Inside(data, p.place)
    ensures LegalIndex(data, NextIndex(data, p))
  {
    NextMovesOn(data, p.place);
    PlaceIsPosition(data, Next(data, p.place), p.place);
  }

  lemma {:induction false} AllMembersStep(ranges: seq<Range>, n: nat)
    requires NonEmpty(ranges) && n < |ranges|
    ensures AllMembers(ranges[..n + 1]) == AllMembers(ranges[..n]) + Members(ranges[n])
  {
    assert ranges[..n + 1][..n] == ranges[..n];
  }

  /** The indexes before the place where an index iterator stands. */
  ghost function Visited(data: seq<seq<Range>>, p: IndexPlace): seq<nat>
    requires NonEmpty(Flat(data)) && p.place.outer <= |data|
  {
    var n := Position(data, p.place);
    (if n <= |Flat(data)| then AllMembers(Flat(data)[..n]) else [])
    + (if Inside(data, p.place) then
         var first := RangeAt(data, p.place).first;
         Members(Range(first, first + p.offset))
       else [])
  }

  lemma {:induction false} VisitedRange(data: seq<seq<Range>>, place: Place)
    requires NoEmptyChunk(data) && NonEmpty(Flat(data)) && Inside(data, place)
    ensures var range, n := RangeAt(data, place), Position(data, place);
      && range.first < range.second && n < |Flat(data)|
      && Visited(data, IndexPlace(Next(data, place), 0)) == AllMembers(Flat(data)[..n]) + Members(range)
  {
    var next, n := Next(data, place), Position(data, place);
    PlaceIsPosition(data, place, place);
    NextMovesOn(data, place);
    PlaceIsPosition(data, next, next);
    AllMembersStep(Flat(data), n);
    VisitedAtStart(data, next);
  }

  /** One step of the iterator visits the index it stood on. */
  lemma {:induction false} VisitedStep(data: seq<seq<Range>>, p: IndexPlace)
    requires NoEmptyChunk(data) && NonEmpty(Flat(data)) && LegalIndex(data, p) && Inside(data, p.place)
    ensures LegalIndex(data, NextIndex(data, p))
    ensures Visited(data, NextIndex(data, p)) == Visited(data, p) + [RangeAt(data, p.place).first + p.offset]
  {
    var range := RangeAt(data, p.place);
    var part := Members(Range(range.first, range.first + p.offset));
    assert Members(Range(range.first, range.first + p.offset + 1)) == part + [range.first + p.offset];
    NextIndexLegal(data, p);
    VisitedRange(data, p.place);
  }

  lemma {:induction false} VisitedAtStart(data: seq<seq<Range>>, place: Place)
    requires NonEmpty(Flat(data)) && place.outer <= |data| && Position(data, place) <= |Flat(data)|
    ensures Visited(data, IndexPlace(place, 0)) == AllMembers(Flat(data)[..Position(data, place)])
  {
    if Inside(data, place) {
      assert Members(Range(RangeAt(data, place).first, RangeAt(data, place).first)) == [];
    }
  }

  lemma {:induction false} AllMembersGrow(ranges: seq<Range>, n: nat)
    requires NonEmpty(ranges) && n <= |ranges|
    ensures |AllMembers(ranges[..n])| <= |AllMembers(ranges)|
    decreases |ranges| - n
  {
    if n == |ranges| {
      assert ranges[..n] == ranges;
    } else {
      AllMembersStep(ranges, n);
      AllMembersGrow(ranges, n + 1);
    }
  }

  /** There are no more indexes to visit than members. */
  lemma {:induction false} VisitedBound(data: seq<seq<Range>>, p: IndexPlace)
    requires NoEmptyChunk(data) && NonEmpty(Flat(data)) && LegalIndex(data, p) && Inside(data, p.place)
    ensures |Visited(data, p)| < |AllMembers(Flat(data))|
  {
    var n := Position(data, p.place);
    PlaceIsPosition(data, p.place, p.place);
    AllMembersStep(Flat(data), n);
    AllMembersGrow(Flat(data), n + 1);
  }

  lemma {:induction false} VisitedEnds(data: seq<seq<Range>>)
    requires NoEmptyChunk(data) && NonEmpty(Flat(data))
    ensures Visited(data, IndexPlace(Begin(data), 0)) == []
    ensures Visited(data, IndexPlace(End(data), 0)) == AllMembers(Flat(data))
    ensures LegalIndex(data, IndexPlace(Begin(data), 0))
  {
    PlaceIsPosition(data, Begin(data), End(data));
    VisitedAtStart(data, Begin(data));
    VisitedAtStart(data, End(data));
    assert Flat(data)[..|Flat(data)|] == Flat(data);
  }

  /** The body of the loop over as_indexes: read the index, and step on. */
  method VisitOne(it: IndexIterator) returns (x: nat)
    requires it.Valid() && it.ranges.Here() != End(it.ranges.data)
    modifies it, it.ranges
    ensures it.Valid()
    ensures Visited(it.ranges.data, it.Here()) == Visited(it.ranges.data, old(it.Here())) + [x]
    ensures |Visited(it.ranges.data, it.Here())| <= |AllMembers(Flat(it.ranges.data))|
  {
    VisitedBound(it.ranges.data, it.Here());
    VisitedStep(it.ranges.data, it.Here());
    x := it.Get();
    it.Increment();
  }

  /** The loop over as_indexes visits every member of every range, in order, and stops at the end. */
  method VisitIndexes(data: seq<seq<Range>>) returns (visited: seq<nat>)
    requires NoEmptyChunk(data) && NonEmpty(Flat(data))
    ensures visited == AllMembers(Flat(data))
  {
    VisitedEnds(data);
    var ranges := new ChunkedRangeVectorIterator(data, Begin(data));
    var it := new IndexIterator(ranges);
    var end := IndexPlace(End(data), 0);
    visited := [];
    while !SameIndex(it.Here(), end)
      invariant it.Valid() && it.ranges.data == data && fresh(it) && fresh(it.ranges)
      invariant visited == Visited(data, it.Here())
      decreases |AllMembers(Flat(data))| - |visited|
    {
      var x := VisitOne(it);
      visited := visited + [x];
    }
  }
}
