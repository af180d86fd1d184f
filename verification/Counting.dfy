/** Weighted totals over sequences, and the positions of the elements that satisfy a predicate. */
module Counting {

  function Total<T>(s: seq<T>, w: T -> nat): nat {
    if s == [] then 0 else Total(s[..|s| - 1], w) + w(s[|s| - 1])
  }

  function Indicator<T>(f: T -> bool): T -> nat {
    x => if f(x) then 1 else 0
  }

  function One(b: bool): int {
    if b then 1 else 0
  }

  function Count<T>(s: seq<T>, f: T -> bool): nat {
    Total(s, Indicator(f))
  }

  /** s without the element at position i. */
  function RemoveAt<T>(s: seq<T>, i: nat): seq<T>
    requires i < |s|
  {
    s[..i] + s[i + 1..]
  }

  lemma {:induction false} TotalOne<T>(x: T, w: T -> nat)
    ensures Total([x], w) == w(x)
  {
    assert [x][..0] == [];
  }

  lemma {:induction false} TotalConcat<T>(a: seq<T>, b: seq<T>, w: T -> nat)
    ensures Total(a + b, w) == Total(a, w) + Total(b, w)
  {
    if b == [] {
      assert a + b == a;
    } else {
      TotalConcat(a, b[..|b| - 1], w);
      assert (a + b)[..|a + b| - 1] == a + b[..|b| - 1];
    }
  }

  lemma {:induction false} TotalRemove<T>(s: seq<T>, i: nat, w: T -> nat)
    requires i < |s|
    ensures Total(s, w) == Total(RemoveAt(s, i), w) + w(s[i])
  {
    var front, back := s[..i], s[i + 1..];
    assert s == (front + [s[i]]) + back;
    TotalConcat(front + [s[i]], back, w);
    TotalConcat(front, [s[i]], w);
    TotalOne(s[i], w);
    TotalConcat(front, back, w);
  }

  lemma {:induction false} TotalZero<T>(s: seq<T>, w: T -> nat)
    requires forall x :: x in s ==> w(x) == 0
    ensures Total(s, w) == 0
  {
    if s == [] {
    } else {
      TotalZero(s[..|s| - 1], w);
    }
  }

  lemma {:induction false} TotalBounded<T>(s: seq<T>, w: T -> nat, bound: nat)
    requires forall x :: x in s ==> w(x) <= bound
    ensures Total(s, w) <= bound * |s|
  {
    if s == [] {
    } else {
      TotalBounded(s[..|s| - 1], w, bound);
    }
  }

  /** The position of the k-th element, counted from zero, that satisfies f. */
  function Nth<T>(s: seq<T>, f: T -> bool, k: nat): (j: nat)
    requires k < Count(s, f)
    ensures j < |s| && f(s[j]) && Count(s[..j], f) == k
  {
    var front := s[..|s| - 1];
    if k < Count(front, f) then
      var j := Nth(front, f, k);
      assert front[..j] == s[..j];
      j
    else
      |s| - 1
  }

  lemma {:induction false} CountPrefix<T>(s: seq<T>, i: nat, j: nat, f: T -> bool)
    requires i <= j <= |s|
    ensures Count(s[..i], f) <= Count(s[..j], f)
    ensures i < j && f(s[i]) ==> Count(s[..i], f) < Count(s[..j], f)
  {
    assert s[..j] == s[..i] + s[i..j];
    TotalConcat(s[..i], s[i..j], Indicator(f));
    if i < j {
      assert s[i..j] == [s[i]] + s[i + 1..j];
      TotalConcat([s[i]], s[i + 1..j], Indicator(f));
      TotalOne(s[i], Indicator(f));
    }
  }

  /**
   * If, in every prefix of the sequence, g-elements are at least as many as f-elements, the k-th
   * f-element is preceded by the k-th g-element; the pairing is one-to-one.
   */
  lemma {:induction false} KthPrecedes<T>(s: seq<T>, i: nat, f: T -> bool, g: T -> bool)
    requires i < |s| && f(s[i]) && !g(s[i])
    requires Count(s[..i + 1], f) <= Count(s[..i + 1], g)
    ensures Count(s[..i], f) < Count(s, g)
    ensures Nth(s, g, Count(s[..i], f)) < i
  {
    CountPrefix(s, i, i + 1, f);
    assert s[..i + 1][..i] == s[..i];
    assert Count(s[..i + 1], g) == Count(s[..i], g);
    CountPrefix(s, i, |s|, g);
    assert s[..|s|] == s;
    var k := Count(s[..i], f);
    var j := Nth(s, g, k);
    if j >= i {
      CountPrefix(s, i, j, g);
    }
  }
}
