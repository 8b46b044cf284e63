/**
 * List operations with the meaning JavaScript gives them: `Array.prototype.filter`,
 * and a `Set` of strings, which keeps its members in insertion order
 * (`add` of a present member changes nothing, `delete` removes it).
 */
module Lists {

  /** `xs.filter(f)`. */
  function Filter<T>(xs: seq<T>, f: T -> bool): (r: seq<T>)
    ensures |r| <= |xs|
    ensures forall i :: 0 <= i < |r| ==> f(r[i])
    ensures (forall i :: 0 <= i < |xs| ==> f(xs[i])) ==> r == xs
  {
    if xs == [] then [] else (if f(xs[0]) then [xs[0]] else []) + Filter(xs[1..], f)
  }

  /** Filtering a concatenation filters each part: the kept elements stay in their order. */
  lemma {:induction false} FilterAppend<T>(a: seq<T>, b: seq<T>, f: T -> bool)
    ensures Filter(a + b, f) == Filter(a, f) + Filter(b, f)
    decreases |a|
  {
    if a == [] {
      assert a + b == b;
    } else {
      FilterAppend(a[1..], b, f);
      var head := if f(a[0]) then [a[0]] else [];
      assert (a + b)[0] == a[0];
      assert (a + b)[1..] == a[1..] + b;
      assert Filter(a + b, f) == head + (Filter(a[1..], f) + Filter(b, f));
      assert head + (Filter(a[1..], f) + Filter(b, f)) == (head + Filter(a[1..], f)) + Filter(b, f);
    }
  }

  /** The filter keeps exactly the elements that pass. */
  lemma {:induction false} FilterMembers<T>(xs: seq<T>, f: T -> bool, x: T)
    ensures x in Filter(xs, f) <==> x in xs && f(x)
    decreases |xs|
  {
    if xs != [] {
      FilterMembers(xs[1..], f, x);
      assert xs == [xs[0]] + xs[1..];
    }
  }

  /** Whatever holds of every element holds of every element kept. */
  lemma {:induction false} FilterKeeps<T>(xs: seq<T>, f: T -> bool, p: T -> bool)
    requires forall i :: 0 <= i < |xs| ==> p(xs[i])
    ensures forall i :: 0 <= i < |Filter(xs, f)| ==> p(Filter(xs, f)[i])
    decreases |xs|
  {
    if xs != [] {
      FilterKeeps(xs[1..], f, p);
    }
  }

  predicate NoDup<T(==)>(xs: seq<T>)
  {
    forall i, j :: 0 <= i < j < |xs| ==> xs[i] != xs[j]
  }

  lemma {:induction false} FilterNoDup<T>(xs: seq<T>, f: T -> bool)
    requires NoDup(xs)
    ensures NoDup(Filter(xs, f))
    decreases |xs|
  {
    if xs != [] {
      FilterNoDup(xs[1..], f);
      FilterMembers(xs[1..], f, xs[0]);
      assert xs[0] !in xs[1..];
    }
  }

  /** `set.add(x)`: a new member goes last, a present one leaves the list as it is. */
  function Insert(xs: seq<string>, x: string): (r: seq<string>)
    ensures forall y :: y in r <==> y in xs || y == x
    ensures NoDup(xs) ==> NoDup(r)
  {
    if x in xs then xs else xs + [x]
  }

  /** `set.delete(x)`. */
  function Remove(xs: seq<string>, x: string): (r: seq<string>)
    ensures forall y :: y in r <==> y in xs && y != x
    ensures NoDup(xs) ==> NoDup(r)
    ensures x !in xs ==> r == xs
  {
    var r := Filter(xs, y => y != x);
    forall y ensures y in r <==> y in xs && y != x {
      FilterMembers(xs, y => y != x, y);
    }
    if NoDup(xs) then FilterNoDup(xs, y => y != x); r else r
  }

  /** `new Set(xs)` read back with `Array.from`: each member once, at its first occurrence. */
  function Distinct(xs: seq<string>): (r: seq<string>)
    ensures NoDup(r)
    ensures forall y :: y in r <==> y in xs
    decreases |xs|
  {
    if xs == [] then [] else Insert(Distinct(xs[..|xs| - 1]), xs[|xs| - 1])
  }

  /** The position of the first occurrence of `y`. */
  function FirstIndex(xs: seq<string>, y: string): (i: nat)
    requires y in xs
    ensures i < |xs| && xs[i] == y && y !in xs[..i]
    decreases |xs|
  {
    if xs[0] == y then 0 else 1 + FirstIndex(xs[1..], y)
  }

  /** Appending leaves the first occurrence of an earlier member where it was. */
  lemma FirstIndexAppend(xs: seq<string>, x: string, y: string)
    requires y in xs
    ensures FirstIndex(xs + [x], y) == FirstIndex(xs, y)
  {
    var i, j := FirstIndex(xs, y), FirstIndex(xs + [x], y);
    assert (xs + [x])[..i] == xs[..i];
    assert (xs + [x])[i] == y;
  }

  /** The members of `Distinct(xs)` come in the order of their first occurrences in `xs`. */
  lemma {:induction false} DistinctOrder(xs: seq<string>)
    ensures forall i, j :: 0 <= i < j < |Distinct(xs)| ==>
              FirstIndex(xs, Distinct(xs)[i]) < FirstIndex(xs, Distinct(xs)[j])
    decreases |xs|
  {
    if xs != [] {
      var init, x := xs[..|xs| - 1], xs[|xs| - 1];
      var d := Distinct(init);
      DistinctOrder(init);
      assert xs == init + [x];
      forall y | y in d
        ensures FirstIndex(xs, y) == FirstIndex(init, y)
      {
        FirstIndexAppend(init, x, y);
      }
      if x !in init {
        assert FirstIndex(xs, x) == |init| by {
          assert x !in xs[..|init|];
        }
        forall i | 0 <= i < |d|
          ensures FirstIndex(xs, d[i]) < FirstIndex(xs, x)
        {
          assert d[i] in d;
        }
      }
    }
  }

  /** A list without repeats is already its own set. */
  lemma {:induction false} DistinctNoDup(xs: seq<string>)
    requires NoDup(xs)
    ensures Distinct(xs) == xs
    decreases |xs|
  {
    if xs != [] {
      var init := xs[..|xs| - 1];
      DistinctNoDup(init);
      assert xs[|xs| - 1] !in init;
      assert init + [xs[|xs| - 1]] == xs;
    }
  }

  /** Deleting after adding: the earlier members keep their order and the new one, unless deleted, is last. */
  lemma RemoveInsert(xs: seq<string>, x: string, y: string)
    ensures Remove(Insert(xs, x), y) == Remove(xs, y) + (if x in xs || x == y then [] else [x])
  {
    if x !in xs {
      FilterAppend(xs, [x], z => z != y);
    }
  }
}
