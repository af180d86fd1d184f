/** The intrusive, doubly linked chain of observers of one row, and the walk over all of it. */
module ObservationChain {

  class ObservationInfo {
    var next: ObservationInfo?
    var prev: ObservationInfo?
    const owner: int

    constructor (owner: int)
      ensures this.owner == owner && next == null && prev == null
    {
      this.owner := owner;
      next, prev := null, null;
    }

    /**
     * Started anywhere in the chain, the walk calls the function once for every observer: first back
     * from here to the head, then from here to the tail.
     */
    method ForEach(ghost chain: seq<ObservationInfo>, ghost k: nat)
      returns (calls: seq<int>, ghost visited: seq<ObservationInfo>)
      requires Linked(chain) && k < |chain| && chain[k] == this
      ensures calls == Owners(visited)
      ensures visited == WalkOrder(chain, k)
      ensures forall i, j :: 0 <= i < j < |visited| ==> visited[i] != visited[j]
      ensures forall n :: n in visited <==> n in chain
    {
      calls, visited := [], [];
      var info: ObservationInfo? := prev;
      ghost var i := k;
      while info != null
        invariant 0 <= i <= k && info == if i == 0 then null else chain[i - 1]
        invariant visited == Backwards(chain, i, k) && calls == Owners(visited)
        decreases i
      {
        calls, visited := calls + [info.owner], visited + [info];
        info := info.prev;
        i := i - 1;
      }
      ghost var back := visited;
      info := this;
      i := k;
      while info != null
        invariant k <= i <= |chain| && info == if i == |chain| then null else chain[i]
        invariant visited == back + chain[k..i] && calls == Owners(visited)
        decreases |chain| - i
      {
        calls, visited := calls + [info.owner], visited + [info];
        info := info.next;
        i := i + 1;
      }
      WalkMeetsAll(chain, k);
      WalkMeetsOnce(chain, k);
    }
  }

  /** Neighbours point at each other, and the ends point nowhere. */
  ghost predicate Linked(chain: seq<ObservationInfo>)
    reads chain
  {
    && (forall i {:trigger chain[i].prev} :: 0 <= i < |chain| ==>
          chain[i].prev == (if i == 0 then null else chain[i - 1]))
    && (forall i {:trigger chain[i].next} :: 0 <= i < |chain| ==>
          chain[i].next == (if i == |chain| - 1 then null else chain[i + 1]))
  }

  function Owners(chain: seq<ObservationInfo>): (r: seq<int>)
    ensures |r| == |chain| && forall i :: 0 <= i < |r| ==> r[i] == chain[i].owner
  {
    seq(|chain|, i requires 0 <= i < |chain| => chain[i].owner)
  }

  /** Elements k - 1 down to i. */
  function Backwards<T>(s: seq<T>, i: nat, k: nat): (r: seq<T>)
    requires i <= k <= |s|
    ensures |r| == k - i && forall j :: 0 <= j < |r| ==> r[j] == s[k - 1 - j]
  {
    seq(k - i, j requires 0 <= j < k - i => s[k - 1 - j])
  }

  function WalkOrder<T>(s: seq<T>, k: nat): seq<T>
    requires k <= |s|
  {
    Backwards(s, 0, k) + s[k..]
  }

  lemma {:induction false} BackwardsSame<T>(s: seq<T>, k: nat)
    requires k <= |s|
    ensures multiset(Backwards(s, 0, k)) == multiset(s[..k])
  {
    if k == 0 {
    } else {
      BackwardsSame(s, k - 1);
      assert Backwards(s, 0, k) == [s[k - 1]] + Backwards(s, 0, k - 1);
      assert s[..k] == s[..k - 1] + [s[k - 1]];
    }
  }

  /** Wherever the walk starts, it meets every element exactly as often as it is in the chain. */
  lemma {:induction false} WalkMeetsAll<T>(s: seq<T>, k: nat)
    requires k <= |s|
    ensures multiset(WalkOrder(s, k)) == multiset(s)
    ensures forall e :: e in WalkOrder(s, k) <==> e in s
  {
    BackwardsSame(s, k);
    assert s == s[..k] + s[k..];
    forall e ensures e in WalkOrder(s, k) <==> e in s {
      assert e in multiset(WalkOrder(s, k)) <==> e in multiset(s);
    }
  }

  /** No node is its own neighbour further along: a linked chain has no repetition. */
  lemma {:induction false} LinkedDistinct(chain: seq<ObservationInfo>, i: nat, j: nat)
    requires Linked(chain) && i < j < |chain|
    ensures chain[i] != chain[j]
  {
    if i == 0 {
      assert chain[i].prev == null && chain[j].prev == chain[j - 1];
    } else {
      LinkedDistinct(chain, i - 1, j - 1);
      assert chain[i].prev == chain[i - 1] && chain[j].prev == chain[j - 1];
    }
  }

  /** The position in the chain of the j-th node that is met. */
  function Met(k: nat, j: nat): nat {
    if j < k then k - 1 - j else j
  }

  /** In a linked chain no node is met twice. */
  lemma {:induction false} WalkMeetsOnce(chain: seq<ObservationInfo>, k: nat)
    requires Linked(chain) && k <= |chain|
    ensures var walk := WalkOrder(chain, k);
      forall i, j :: 0 <= i < j < |walk| ==> walk[i] != walk[j]
  {
    var walk := WalkOrder(chain, k);
    forall i, j | 0 <= i < j < |walk| ensures walk[i] != walk[j] {
      var a, b := Met(k, i), Met(k, j);
      assert walk[i] == chain[a] && walk[j] == chain[b];
      if a < b {
        LinkedDistinct(chain, a, b);
      } else {
        LinkedDistinct(chain, b, a);
      }
    }
  }
}
