/**
 * The `URLSearchParams` operations the components use, following section 6.2
 * of the WHATWG URL Standard: `get`, `set`, `delete` and `append` on an ordered
 * list of name-value pairs. The functions say what each operation makes of the
 * list; the class is the mutable object the components fill before navigating.
 */
module SearchParams {
  import opened Wrappers
  import opened UrlEncoding
  import Text

  /** Some pair of `ps` is named `name`. */
  predicate HasName(ps: Params, name: string)
  {
    ps != [] && (ps[0].0 == name || HasName(ps[1..], name))
  }

  lemma {:induction false} NoName(ps: Params, name: string)
    requires forall i :: 0 <= i < |ps| ==> ps[i].0 != name
    ensures !HasName(ps, name)
    decreases |ps|
  {
    if ps != [] {
      NoName(ps[1..], name);
    }
  }

  /** `params.get(name)`: the value of the first pair named `name`, or nothing. */
  function Get(ps: Params, name: string): (r: Option<string>)
    ensures r.None? <==> !HasName(ps, name)
    ensures r.Some? ==> (name, r.value) in ps
  {
    if ps == [] then None
    else if ps[0].0 == name then Some(ps[0].1)
    else Get(ps[1..], name)
  }

  /** `params.delete(name)`: every pair named `name` removed, the rest kept in order. */
  function DeleteAll(ps: Params, name: string): (r: Params)
    ensures !HasName(r, name)
    ensures |r| <= |ps|
    ensures !HasName(ps, name) ==> r == ps
  {
    if ps == [] then []
    else if ps[0].0 == name then DeleteAll(ps[1..], name)
    else [ps[0]] + DeleteAll(ps[1..], name)
  }

  /** The list with the first pair named `name` given `value` and every later such pair removed. */
  function SetFirst(ps: Params, name: string, value: string): (r: Params)
    requires HasName(ps, name)
    ensures (name, value) in r && |r| <= |ps|
  {
    if ps[0].0 == name then [(name, value)] + DeleteAll(ps[1..], name)
    else [ps[0]] + SetFirst(ps[1..], name, value)
  }

  /** `params.set(name, value)`: afterwards the list holds the new pair. */
  function SetValue(ps: Params, name: string, value: string): (r: Params)
    ensures (name, value) in r && |r| <= |ps| + 1
  {
    if HasName(ps, name) then SetFirst(ps, name, value) else ps + [(name, value)]
  }

  /** The position of the first pair named `name`. */
  function NameIndex(ps: Params, name: string): (i: nat)
    requires HasName(ps, name)
    ensures i < |ps| && ps[i].0 == name
    ensures forall k :: 0 <= k < i ==> ps[k].0 != name
  {
    if ps[0].0 == name then 0 else 1 + NameIndex(ps[1..], name)
  }

  /** `get` finds the first pair of that name: pairs before it with other names do not matter. */
  lemma {:induction false} GetAppend(a: Params, b: Params, name: string)
    requires !HasName(a, name)
    ensures Get(a + b, name) == Get(b, name)
    decreases |a|
  {
    if a != [] {
      assert (a + b)[1..] == a[1..] + b;
      GetAppend(a[1..], b, name);
    } else {
      assert a + b == b;
    }
  }

  lemma {:induction false} DeleteAllAppend(a: Params, b: Params, name: string)
    ensures DeleteAll(a + b, name) == DeleteAll(a, name) + DeleteAll(b, name)
    decreases |a|
  {
    if a == [] {
      assert a + b == b;
    } else {
      DeleteAllAppend(a[1..], b, name);
      assert (a + b)[1..] == a[1..] + b;
      if a[0].0 != name {
        assert [a[0]] + (DeleteAll(a[1..], name) + DeleteAll(b, name))
            == [a[0]] + DeleteAll(a[1..], name) + DeleteAll(b, name);
      }
    }
  }

  lemma {:induction false} SetFirstSpec(ps: Params, name: string, value: string)
    requires HasName(ps, name)
    ensures DeleteAll(SetFirst(ps, name, value), name) == DeleteAll(ps, name)
    ensures Get(SetFirst(ps, name, value), name) == Some(value)
    decreases |ps|
  {
    var r := SetFirst(ps, name, value);
    if ps[0].0 == name {
      assert r[1..] == DeleteAll(ps[1..], name);
    } else {
      SetFirstSpec(ps[1..], name, value);
      assert r[1..] == SetFirst(ps[1..], name, value);
    }
  }

  /**
   * `set` on a list holding the name: the pairs before the first one of that
   * name stay, that pair takes the new value in place, and every later pair
   * of the name is removed.
   */
  lemma SetFirstShape(ps: Params, name: string, value: string)
    requires HasName(ps, name)
    ensures var i := NameIndex(ps, name);
            SetFirst(ps, name, value) == ps[..i] + [(name, value)] + DeleteAll(ps[i + 1..], name)
  {
    var i := NameIndex(ps, name);
    var a, tail := ps[..i], ps[i + 1..];
    var b := [ps[i]] + tail;
    assert ps == a + b;
    assert b[1..] == tail;
    var rest := DeleteAll(tail, name);
    assert SetFirst(b, name, value) == [(name, value)] + rest;
    NoName(a, name);
    SetFirstSkip(a, b, name, value);
    Text.Regroup3(a, [(name, value)], rest);
  }

  /** Pairs in front of the first one of the name are kept as they are. */
  lemma {:induction false} SetFirstSkip(a: Params, b: Params, name: string, value: string)
    requires !HasName(a, name) && HasName(b, name)
    ensures HasName(a + b, name) && SetFirst(a + b, name, value) == a + SetFirst(b, name, value)
    decreases |a|
  {
    if a == [] {
      assert a + b == b;
    } else {
      var ab := a + b;
      assert ab[0] == a[0] && ab[1..] == a[1..] + b;
      SetFirstSkip(a[1..], b, name, value);
      Text.Regroup3([a[0]], a[1..], SetFirst(b, name, value));
      assert [a[0]] + a[1..] == a;
    }
  }

  /**
   * `set` leaves exactly one pair of the name: at the place of the first one
   * when there was one, appended last when there was none.
   */
  lemma SetValueShape(ps: Params, name: string, value: string)
    ensures !HasName(ps, name) ==> SetValue(ps, name, value) == ps + [(name, value)]
    ensures HasName(ps, name) ==>
              var i := NameIndex(ps, name);
              SetValue(ps, name, value) == ps[..i] + [(name, value)] + DeleteAll(ps[i + 1..], name)
  {
    if HasName(ps, name) {
      SetFirstShape(ps, name, value);
    }
  }

  /** `set` leaves one pair more than `delete` of the same name. */
  lemma SetValueLength(ps: Params, name: string, value: string)
    ensures |SetValue(ps, name, value)| == |DeleteAll(ps, name)| + 1
  {
    if HasName(ps, name) {
      SetFirstLength(ps, name, value);
    }
  }

  lemma {:induction false} SetFirstLength(ps: Params, name: string, value: string)
    requires HasName(ps, name)
    ensures |SetFirst(ps, name, value)| == |DeleteAll(ps, name)| + 1
    decreases |ps|
  {
    if ps[0].0 != name {
      SetFirstLength(ps[1..], name, value);
    }
  }

  /** Removing the pairs of one name does not change what `get` finds for another. */
  lemma {:induction false} GetIgnoresDeleted(ps: Params, name: string, other: string)
    requires other != name
    ensures Get(DeleteAll(ps, name), other) == Get(ps, other)
    decreases |ps|
  {
    if ps != [] {
      GetIgnoresDeleted(ps[1..], name, other);
      if ps[0].0 != name {
        assert ([ps[0]] + DeleteAll(ps[1..], name))[1..] == DeleteAll(ps[1..], name);
      }
    }
  }

  /**
   * After `set`, `get` returns the new value; removing the pairs named `name`
   * gives what removing them gave before, so no other pair changes, moves or
   * disappears; and `get` of any other name is unchanged.
   */
  lemma SetValueSpec(ps: Params, name: string, value: string)
    ensures Get(SetValue(ps, name, value), name) == Some(value)
    ensures DeleteAll(SetValue(ps, name, value), name) == DeleteAll(ps, name)
    ensures forall other :: other != name ==> Get(SetValue(ps, name, value), other) == Get(ps, other)
  {
    if HasName(ps, name) {
      SetFirstSpec(ps, name, value);
    } else {
      DeleteAllAppend(ps, [(name, value)], name);
      GetAppend(ps, [(name, value)], name);
      assert DeleteAll(ps, name) + [] == DeleteAll(ps, name);
    }
    forall other | other != name
      ensures Get(SetValue(ps, name, value), other) == Get(ps, other)
    {
      GetIgnoresDeleted(SetValue(ps, name, value), name, other);
      GetIgnoresDeleted(ps, name, other);
    }
  }

  /** After `delete`, `get` finds nothing for that name and the same as before for every other. */
  lemma DeleteAllSpec(ps: Params, name: string)
    ensures Get(DeleteAll(ps, name), name) == None
    ensures forall other :: other != name ==> Get(DeleteAll(ps, name), other) == Get(ps, other)
  {
    forall other | other != name
      ensures Get(DeleteAll(ps, name), other) == Get(ps, other)
    {
      GetIgnoresDeleted(ps, name, other);
    }
  }

  /** `delete` only removes pairs. */
  lemma {:induction false} DeleteAllPairs(ps: Params, name: string)
    ensures forall p :: p in DeleteAll(ps, name) ==> p in ps
    decreases |ps|
  {
    if ps != [] {
      DeleteAllPairs(ps[1..], name);
    }
  }

  lemma {:induction false} SetFirstPairs(ps: Params, name: string, value: string)
    requires HasName(ps, name)
    ensures forall p :: p in SetFirst(ps, name, value) ==> p in ps || p == (name, value)
    decreases |ps|
  {
    if ps[0].0 == name {
      DeleteAllPairs(ps[1..], name);
    } else {
      SetFirstPairs(ps[1..], name, value);
    }
  }

  /** `set` only keeps pairs that were there and adds the new one. */
  lemma SetValuePairs(ps: Params, name: string, value: string)
    ensures forall p :: p in SetValue(ps, name, value) ==> p in ps || p == (name, value)
  {
    if HasName(ps, name) {
      SetFirstPairs(ps, name, value);
    }
  }

  /** A `URLSearchParams` object: the list that `set`, `delete` and `append` rewrite. */
  class SearchParamList {
    var list: Params

    /** `new URLSearchParams(init)`, given the pairs the initialising text parses to. */
    constructor (init: Params)
      ensures list == init
    {
      list := init;
    }

    method Set(name: string, value: string)
      modifies this
      ensures list == SetValue(old(list), name, value)
    {
      list := SetValue(list, name, value);
    }

    method Delete(name: string)
      modifies this
      ensures list == DeleteAll(old(list), name)
    {
      list := DeleteAll(list, name);
    }

    method Append(name: string, value: string)
      modifies this
      ensures list == old(list) + [(name, value)]
    {
      list := list + [(name, value)];
    }

    /** `params.toString()`. */
    function ToString(): string
      reads this
    {
      FormSerialize(list)
    }
  }
}
