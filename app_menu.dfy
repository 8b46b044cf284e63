/**
 * The stateful side of the filter menu (AppMenu.js): the JavaScript `Set`
 * each checkbox handler fills, the `URLSearchParams` object `formatQueryParams`
 * fills, and the menu itself, whose handlers hand a target to
 * `router.replace`. The router is a log of the targets it was given.
 */
module AppMenu {
  import opened Wrappers
  import opened Text
  import opened Lists
  import opened UrlEncoding
  import opened SearchParams
  import opened MenuQuery

  /** A JavaScript `Set` of strings, read back in insertion order. */
  class StringSet {
    var items: seq<string>

    /** `new Set(xs)`: the members of `xs` added one by one. */
    constructor (xs: seq<string>)
      ensures items == Distinct(xs)
    {
      items := [];
      new;
      var i := 0;
      while i < |xs|
        invariant 0 <= i <= |xs|
        invariant items == Distinct(xs[..i])
      {
        assert xs[..i + 1][..i] == xs[..i];
        Add(xs[i]);
        i := i + 1;
      }
      assert xs[..|xs|] == xs;
    }

    /** `set.add(x)`. */
    method Add(x: string)
      modifies this
      ensures items == Insert(old(items), x)
    {
      if x !in items {
        items := items + [x];
      }
    }

    /** `set.delete(x)`. */
    method Delete(x: string)
      modifies this
      ensures items == Remove(old(items), x)
    {
      items := Remove(items, x);
    }
  }

  /** Appending one pair to the scanned prefix adds it to the other pairs exactly when it is kept. */
  lemma OtherPairsStep(entries: Params, i: nat)
    requires i < |entries|
    ensures OtherPairs(entries[..i + 1], StateWfo)
         == OtherPairs(entries[..i], StateWfo) + (if Lower(entries[i].0) !in StateWfo then [entries[i]] else [])
  {
    assert entries[..i + 1] == entries[..i] + [entries[i]];
    OtherPairsAppend(entries[..i], [entries[i]], StateWfo);
    OtherPairsSingle(entries[i], StateWfo);
  }

  /** The `set` calls of `formatQueryParams`: a `state` pair, then a `wfo` pair, each only when it has pieces. */
  method SetStateWfo(formatted: SearchParamList, states: seq<string>, offices: seq<string>)
    requires formatted.list == []
    modifies formatted
    ensures formatted.list == Entry("state", states) + Entry("wfo", offices)
  {
    if states != [] {
      assert !HasName(formatted.list, "state");
      formatted.Set("state", Join(states, ','));
    }
    assert formatted.list == Entry("state", states);
    if offices != [] {
      assert !HasName(formatted.list, "wfo") by {
        NoName(formatted.list, "wfo");
      }
      formatted.Set("wfo", Join(offices, ','));
    }
  }

  /** The `forEach` of `formatQueryParams`: every pair whose key is not `state` or `wfo`, ignoring case, appended in order. */
  method AppendOthers(formatted: SearchParamList, entries: Params)
    modifies formatted
    ensures formatted.list == old(formatted.list) + OtherPairs(entries, StateWfo)
  {
    var i := 0;
    while i < |entries|
      invariant 0 <= i <= |entries|
      invariant formatted.list == old(formatted.list) + OtherPairs(entries[..i], StateWfo)
    {
      OtherPairsStep(entries, i);
      if Lower(entries[i].0) !in StateWfo {
        formatted.Append(entries[i].0, entries[i].1);
      }
      i := i + 1;
    }
    assert entries[..|entries|] == entries;
  }

  /**
   * `formatQueryParams`: a fresh `URLSearchParams` given one `state` and one
   * `wfo` pair, when there are pieces for them, then every other pair
   * appended in order; the result is its serialization, decoded. `None`
   * stands for a `decodeURIComponent` that throws.
   */
  method FormatQueryParams(entries: Params) returns (link: Option<string>)
    ensures link == FormatLink(entries)
  {
    var formatted := new SearchParamList([]);
    var states := Pieces(entries, "state");
    if states.None? {
      return None;
    }
    var offices := Pieces(entries, "wfo");
    if offices.None? {
      return None;
    }
    SetStateWfo(formatted, states.value, offices.value);
    AppendOthers(formatted, entries);
    assert FormatPairs(entries) == Some(formatted.list);
    link := DecodeURIComponent(formatted.ToString());
  }

  /**
   * The menu as rendered for one address: its pathname, its parameters and
   * the selections decoded from them, and the targets its handlers gave the
   * router so far.
   */
  class Menu {
    const pathname: string
    const params: Params
    const selectedStates: seq<string>
    const selectedOffices: seq<string>
    const selectedTypes: seq<string>
    var replaced: seq<string>

    /** The menu renders only when the three selections decode. */
    constructor (pathname: string, params: Params)
      requires ReadSelection(params, "state", true).Some?
      requires ReadSelection(params, "wfo", true).Some?
      requires ReadSelection(params, "type", false).Some?
      ensures this.pathname == pathname && this.params == params
      ensures selectedStates == ReadSelection(params, "state", true).value
      ensures selectedOffices == ReadSelection(params, "wfo", true).value
      ensures selectedTypes == ReadSelection(params, "type", false).value
      ensures replaced == []
    {
      this.pathname := pathname;
      this.params := params;
      selectedStates := ReadSelection(params, "state", true).value;
      selectedOffices := ReadSelection(params, "wfo", true).value;
      selectedTypes := ReadSelection(params, "type", false).value;
      replaced := [];
    }

    /** `updateURL(newStates, newOffices)`. */
    method Navigate(newStates: seq<string>, newOffices: seq<string>)
      modifies this
      ensures replaced == old(replaced) + [UpdateUrl(pathname, params, newStates, newOffices)]
    {
      replaced := replaced + [UpdateUrl(pathname, params, newStates, newOffices)];
    }

    /** `updateURLWithTypes(newTypes)`: the current states and offices with new types. */
    method NavigateWithTypes(newTypes: seq<string>)
      modifies this
      ensures replaced == old(replaced) + [UpdateUrlWithTypes(pathname, params, selectedStates, selectedOffices, newTypes)]
    {
      replaced := replaced + [UpdateUrlWithTypes(pathname, params, selectedStates, selectedOffices, newTypes)];
    }

    /** `handleStateSelect(code, checked)`. */
    method StateSelect(code: string, checked: bool)
      modifies this
      ensures replaced == old(replaced) + [UpdateUrl(pathname, params, ToggleState(selectedStates, code, checked), selectedOffices)]
    {
      var states := new StringSet(selectedStates);
      if checked {
        states.Add(Upper(code));
        states.Delete(Cont);
      } else {
        states.Delete(Upper(code));
      }
      Navigate(states.items, selectedOffices);
    }

    /** `handleAllStates`. */
    method AllStates()
      modifies this
      ensures replaced == old(replaced) + [UpdateUrl(pathname, params, [], selectedOffices)]
    {
      Navigate([], selectedOffices);
    }

    /** `handleOfficeSelect(code, checked)`. */
    method OfficeSelect(code: string, checked: bool)
      modifies this
      ensures replaced == old(replaced) + [UpdateUrl(pathname, params, selectedStates, Toggle(selectedOffices, Upper(code), checked))]
    {
      var offices := new StringSet(selectedOffices);
      if checked {
        offices.Add(Upper(code));
      } else {
        offices.Delete(Upper(code));
      }
      Navigate(selectedStates, offices.items);
    }

    /** `handleAllOffices`. */
    method AllOffices()
      modifies this
      ensures replaced == old(replaced) + [UpdateUrl(pathname, params, selectedStates, [])]
    {
      Navigate(selectedStates, []);
    }

    /** `handleTypeSelect(key, checked)`. */
    method TypeSelect(key: string, checked: bool)
      modifies this
      ensures replaced == old(replaced) + [UpdateUrlWithTypes(pathname, params, selectedStates, selectedOffices,
                                                              Toggle(selectedTypes, key, checked))]
    {
      var types := new StringSet(selectedTypes);
      if checked {
        types.Add(key);
      } else {
        types.Delete(key);
      }
      NavigateWithTypes(types.items);
    }

    /** `handleAllTypes`. */
    method AllTypes()
      modifies this
      ensures replaced == old(replaced) + [UpdateUrlWithTypes(pathname, params, selectedStates, selectedOffices, [])]
    {
      NavigateWithTypes([]);
    }

    /** The `CONT` ("Lower 48 States") checkbox. */
    method ContChange(checked: bool)
      modifies this
      ensures replaced == old(replaced) + [UpdateUrl(pathname, params, ContSelection(checked), selectedOffices)]
    {
      if checked {
        Navigate([Cont], selectedOffices);
      } else {
        Navigate([], selectedOffices);
      }
    }

    /** The text of the shareable-link field and of the copy button. */
    method ShareLinkText() returns (link: Option<string>)
      ensures link == ShareLink(pathname, params)
    {
      if FormSerialize(params) == "" {
        link := Some(Origin + pathname);
      } else {
        var q := FormatQueryParams(params);
        if q.None? {
          link := None;
        } else {
          link := Some(Origin + pathname + ("?" + q.value));
        }
      }
    }
  }
}
