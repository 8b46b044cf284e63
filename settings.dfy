/**
 * The settings dialog (Settings.tsx): the zone filter, whose text is
 * sanitised into a comma-separated list of NWS zone and county codes and
 * written to the `zone` parameter, and the two-phase colour editor, whose
 * staged colours are written to the `colors` parameter only by the Close
 * button. The parser and serializer of the `colors` parameter and the
 * passive-mode helpers are not part of this model: the dialog is given them.
 */
module Settings {
  import opened Wrappers
  import opened Text
  import opened Lists
  import opened UrlEncoding
  import opened SearchParams

  // ---------------------------------------------------------------------------
  // Zone codes
  // ---------------------------------------------------------------------------

  /** `/^[A-Z]{3}\d{3}$/`: three upper-case ASCII letters, then three ASCII digits. */
  predicate IsZoneCode(z: string)
  {
    |z| == 6 && IsAsciiUpper(z[0]) && IsAsciiUpper(z[1]) && IsAsciiUpper(z[2])
    && IsDigit(z[3]) && IsDigit(z[4]) && IsDigit(z[5])
  }

  /** The characters a form serializer leaves alone, and the comma. */
  predicate Literal(s: string)
  {
    forall i :: 0 <= i < |s| ==> IsFormSafe(s[i]) || s[i] == ','
  }

  lemma ZoneCodeChars(z: string)
    requires IsZoneCode(z)
    ensures NoSpace(z) && NoLower(z) && ',' !in z && AllAscii(z) && Literal(z)
  {
  }

  /** `z.trim().toUpperCase()` for each piece. */
  function Normalise(xs: seq<string>): seq<string>
  {
    seq(|xs|, i requires 0 <= i < |xs| => NormaliseOne(xs[i]))
  }

  function NormaliseOne(z: string): string
  {
    Upper(Trim(z))
  }

  /** The codes `sanitizeZoneInput` keeps, in input order, repeats included. */
  function ValidZones(input: string): (r: seq<string>)
    ensures forall i :: 0 <= i < |r| ==> IsZoneCode(r[i])
  {
    Filter(Normalise(Split(StripSpaces(input), ',')), IsZoneCode)
  }

  /**
   * `sanitizeZoneInput`: whitespace removed, the comma-separated pieces
   * trimmed and upper-cased, the invalid ones dropped, the rest joined by
   * commas. The result has no whitespace, only characters the serializer
   * leaves alone, and is empty exactly when no code is valid.
   */
  function SanitizeZoneInput(input: string): (r: string)
    ensures NoSpace(r)
    ensures Literal(r) && AllAscii(r)
    ensures r == "" <==> ValidZones(input) == []
  {
    JoinedZones(ValidZones(input));
    Join(ValidZones(input), ',')
  }

  /** A non-empty sanitised text splits at its commas into exactly the valid codes. */
  lemma SanitizedCodes(input: string)
    ensures SanitizeZoneInput(input) != "" ==> Split(SanitizeZoneInput(input), ',') == ValidZones(input)
    ensures SanitizeZoneInput(input) != "" ==>
              forall i :: 0 <= i < |Split(SanitizeZoneInput(input), ',')| ==> IsZoneCode(Split(SanitizeZoneInput(input), ',')[i])
  {
    JoinedZones(ValidZones(input));
  }

  /** What joining valid codes by commas gives. */
  lemma JoinedZones(zs: seq<string>)
    requires forall i :: 0 <= i < |zs| ==> IsZoneCode(zs[i])
    ensures NoSpace(Join(zs, ',')) && Literal(Join(zs, ',')) && AllAscii(Join(zs, ','))
    ensures Join(zs, ',') == "" <==> zs == []
    ensures zs != [] ==> Split(Join(zs, ','), ',') == zs
  {
    forall i | 0 <= i < |zs| ensures NoSpace(zs[i]) && ',' !in zs[i] && AllAscii(zs[i]) {
      ZoneCodeChars(zs[i]);
    }
    JoinNoSpace(zs, ',');
    JoinAscii(zs, ',');
    JoinLiteral(zs);
    if zs != [] {
      SplitJoin(zs, ',');
      assert |zs[0]| == 6;
    }
  }

  lemma {:induction false} JoinLiteral(xs: seq<string>)
    requires forall i :: 0 <= i < |xs| ==> IsZoneCode(xs[i])
    ensures Literal(Join(xs, ','))
    decreases |xs|
  {
    if |xs| >= 2 {
      JoinLiteral(xs[1..]);
    }
  }

  lemma NormaliseAppend(a: seq<string>, b: seq<string>)
    ensures Normalise(a + b) == Normalise(a) + Normalise(b)
  {
    var l, r := Normalise(a + b), Normalise(a) + Normalise(b);
    assert |l| == |r|;
    forall i | 0 <= i < |l|
      ensures l[i] == r[i]
    {
      if i < |a| {
        assert (a + b)[i] == a[i];
      } else {
        assert (a + b)[i] == b[i - |a|];
      }
    }
  }

  /**
   * Sanitising two inputs joined by a comma sanitises each of them, in
   * order: valid codes are all kept, repeats included, and nothing from one
   * side affects the other.
   */
  lemma ValidZonesConcat(a: string, b: string)
    ensures ValidZones(a + "," + b) == ValidZones(a) + ValidZones(b)
  {
    StripSpacesAppend(a + ",", b);
    StripSpacesAppend(a, ",");
    assert StripSpaces(",") == "," by {
      assert ","[1..] == "";
    }
    SplitAppend(StripSpaces(a), StripSpaces(b), ',');
    NormaliseAppend(Split(StripSpaces(a), ','), Split(StripSpaces(b), ','));
    FilterAppend(Normalise(Split(StripSpaces(a), ',')), Normalise(Split(StripSpaces(b), ',')), IsZoneCode);
  }

  /** A single piece is kept, with its whitespace removed and upper-cased, exactly when that is a valid code. */
  lemma ValidZonesToken(t: string)
    requires ',' !in t
    ensures ValidZones(t) == if IsZoneCode(Upper(StripSpaces(t))) then [Upper(StripSpaces(t))] else []
  {
    var u := StripSpaces(t);
    StripSpacesKeeps(t, ',');
    SplitSingle(u, ',');
    SingleNormalised(u);
    var n := Normalise(Split(u, ','));
    assert n == [Upper(u)] && n[1..] == [];
    assert Filter(n, IsZoneCode) == (if IsZoneCode(n[0]) then [n[0]] else []) + Filter(n[1..], IsZoneCode);
  }

  lemma SingleNormalised(u: string)
    requires NoSpace(u)
    ensures Normalise([u]) == [Upper(u)]
  {
    TrimFixed(u);
    var n := Normalise([u]);
    assert |n| == 1 && n[0] == NormaliseOne(u);
    assert NormaliseOne(u) == Upper(u);
    assert n == [n[0]];
  }

  lemma {:induction false} StripSpacesKeeps(s: string, c: char)
    requires c !in s
    ensures c !in StripSpaces(s)
    decreases |s|
  {
    if s != [] {
      StripSpacesKeeps(s[1..], c);
    }
  }

  /** A comma-joined list of valid codes is sanitised to itself: nothing is reordered or deduplicated. */
  lemma {:induction false} SanitizeValidList(zs: seq<string>)
    requires forall i :: 0 <= i < |zs| ==> IsZoneCode(zs[i])
    ensures ValidZones(Join(zs, ',')) == zs
    ensures zs != [] ==> SanitizeZoneInput(Join(zs, ',')) == Join(zs, ',')
    decreases |zs|
  {
    if zs == [] {
      EmptyInput();
    } else if |zs| == 1 {
      ValidZoneCode(zs[0]);
      assert Join(zs, ',') == zs[0];
    } else {
      SanitizeValidList(zs[1..]);
      ValidZonesCons(zs[0], zs[1..]);
      assert [zs[0]] + zs[1..] == zs;
    }
  }

  /** A zone code on its own is kept as it is. */
  lemma ValidZoneCode(z: string)
    requires IsZoneCode(z)
    ensures ValidZones(z) == [z]
  {
    ZoneCodeChars(z);
    StripSpacesFixed(z);
    UpperFixed(z);
    ValidZonesToken(z);
  }

  /** A zone code in front of a comma-joined list of codes is kept in front. */
  lemma ValidZonesCons(z: string, rest: seq<string>)
    requires IsZoneCode(z) && rest != []
    requires ValidZones(Join(rest, ',')) == rest
    ensures ValidZones(Join([z] + rest, ',')) == [z] + rest
  {
    var j := Join(rest, ',');
    ValidZoneCode(z);
    ValidZonesConcat(z, j);
    assert ([z] + rest)[1..] == rest;
    assert Join([z] + rest, ',') == z + "," + j;
  }

  /** An empty input holds no code. */
  lemma EmptyInput()
    ensures ValidZones("") == []
    ensures SanitizeZoneInput("") == ""
  {
    assert Split("", ',') == [""];
    assert Normalise([""]) == [""];
    assert [""][1..] == [];
  }

  /** Sanitising twice gives what sanitising once gives. */
  lemma SanitizeIdempotent(input: string)
    ensures SanitizeZoneInput(SanitizeZoneInput(input)) == SanitizeZoneInput(input)
  {
    var zs := ValidZones(input);
    if zs == [] {
      EmptyInput();
    } else {
      SanitizeValidList(zs);
    }
  }

  /** The sanitised zone list appears literally in the query: the serializer and the `%2C` rewrite leave it as it is. */
  lemma {:induction false} CommaEncodeLiteral(s: string)
    requires Literal(s)
    ensures CommaEncode(s) == s
    decreases |s|
  {
    if s != [] {
      CommaEncodeLiteral(s[1..]);
      assert s == [s[0]] + s[1..];
    }
  }

  // ---------------------------------------------------------------------------
  // Writing a parameter: `updateZoneParam` and `commitColorsToUrl`
  // ---------------------------------------------------------------------------

  /** The parameters after setting `name` to `value`, or deleting it when `value` is empty. */
  function SetOrDelete(ps: Params, name: string, value: string): (r: Params)
    ensures HasName(r, name) <==> value != ""
    ensures value != "" ==> (name, value) in r
  {
    if value != "" then
      SearchParams.SetValueSpec(ps, name, value);
      SetValue(ps, name, value)
    else DeleteAll(ps, name)
  }

  /** `params.toString().replace(/%2C/g, ",")` and the target built from it. */
  function CommaTarget(pathname: string, ps: Params): (t: string)
    ensures ps == [] <==> t == pathname
    ensures |pathname| <= |t| && t[..|pathname|] == pathname
  {
    Target(pathname, UnescapeCommas(FormSerialize(ps)))
  }

  /** The target `updateZoneParam(input)` hands to `router.replace`. */
  function ZoneTarget(pathname: string, ps: Params, input: string): (t: string)
    ensures |pathname| <= |t| && t[..|pathname|] == pathname
  {
    CommaTarget(pathname, SetOrDelete(ps, "zone", SanitizeZoneInput(input)))
  }

  /** The target `commitColorsToUrl` hands to `router.replace`, given the serialized colours. */
  function ColorsTarget(pathname: string, ps: Params, serialized: string): (t: string)
    ensures |pathname| <= |t| && t[..|pathname|] == pathname
  {
    CommaTarget(pathname, SetOrDelete(ps, "colors", serialized))
  }

  /**
   * After setting or deleting, `get` finds the value, or nothing when it is
   * empty; every other name's value, and every pair of another name, is as
   * it was.
   */
  lemma SetOrDeleteSpec(ps: Params, name: string, value: string)
    ensures Get(SetOrDelete(ps, name, value), name) == if value != "" then Some(value) else None
    ensures forall other :: other != name ==> Get(SetOrDelete(ps, name, value), other) == Get(ps, other)
    ensures DeleteAll(SetOrDelete(ps, name, value), name) == DeleteAll(ps, name)
  {
    if value != "" {
      SetValueSpec(ps, name, value);
    } else {
      DeleteAllSpec(ps, name);
      DeleteAllTwice(ps, name);
    }
  }

  lemma {:induction false} DeleteAllTwice(ps: Params, name: string)
    ensures DeleteAll(DeleteAll(ps, name), name) == DeleteAll(ps, name)
    decreases |ps|
  {
    if ps != [] {
      DeleteAllTwice(ps[1..], name);
      if ps[0].0 != name {
        assert ([ps[0]] + DeleteAll(ps[1..], name))[1..] == DeleteAll(ps[1..], name);
      }
    }
  }

  lemma SetOrDeleteAscii(ps: Params, name: string, value: string)
    requires AsciiParams(ps) && AllAscii(name) && AllAscii(value)
    ensures AsciiParams(SetOrDelete(ps, name, value))
  {
    var r := SetOrDelete(ps, name, value);
    if value != "" {
      SetValuePairs(ps, name, value);
    } else {
      DeleteAllPairs(ps, name);
    }
    forall i | 0 <= i < |r| ensures AllAscii(r[i].0) && AllAscii(r[i].1) {
      assert r[i] in r;
      if r[i] != (name, value) {
        var j :| 0 <= j < |ps| && ps[j] == r[i];
      }
    }
  }

  /** The page navigated to by a `%2C`-rewritten target has exactly the pairs that were serialized. */
  lemma CommaTargetRoundTrip(pathname: string, ps: Params)
    requires UrlPath(pathname) && AsciiParams(ps)
    ensures ParamsAfter(CommaTarget(pathname, ps)) == ps
  {
    UnescapeSerialized(ps);
    BlankFreeKept(CommaSerialize(ps));
    QueryOfTarget(pathname, CommaSerialize(ps));
    ParseCommaSerialized(ps);
  }

  /**
   * After writing `name` the page's `name` is `value`, or absent when that
   * is empty, and every other parameter is as it was.
   */
  lemma WriteRoundTrip(pathname: string, ps: Params, name: string, value: string)
    requires UrlPath(pathname) && AsciiParams(ps) && AllAscii(name) && AllAscii(value)
    ensures Get(ParamsAfter(CommaTarget(pathname, SetOrDelete(ps, name, value))), name)
         == if value != "" then Some(value) else None
    ensures forall other :: other != name ==>
              Get(ParamsAfter(CommaTarget(pathname, SetOrDelete(ps, name, value))), other) == Get(ps, other)
  {
    SetOrDeleteAscii(ps, name, value);
    CommaTargetRoundTrip(pathname, SetOrDelete(ps, name, value));
    SetOrDeleteSpec(ps, name, value);
  }

  /**
   * After `updateZoneParam(input)` the page's `zone` is the sanitised input,
   * or absent when that is empty, and every other parameter is as it was.
   */
  lemma ZoneTargetRoundTrip(pathname: string, ps: Params, input: string)
    requires UrlPath(pathname) && AsciiParams(ps)
    ensures Get(ParamsAfter(ZoneTarget(pathname, ps, input)), "zone")
         == if SanitizeZoneInput(input) != "" then Some(SanitizeZoneInput(input)) else None
    ensures forall other :: other != "zone" ==> Get(ParamsAfter(ZoneTarget(pathname, ps, input)), other) == Get(ps, other)
  {
    WriteRoundTrip(pathname, ps, "zone", SanitizeZoneInput(input));
  }

  /** The zone list is written with literal commas: the query holds `zone=` followed by the sanitised text itself. */
  lemma ZoneQueryLiteral(pathname: string, ps: Params, input: string)
    requires UrlPath(pathname)
    ensures QueryOf(ZoneTarget(pathname, ps, input)) == CommaSerialize(SetOrDelete(ps, "zone", SanitizeZoneInput(input)))
    ensures CommaEncode(SanitizeZoneInput(input)) == SanitizeZoneInput(input)
  {
    var r := SetOrDelete(ps, "zone", SanitizeZoneInput(input));
    UnescapeSerialized(r);
    BlankFreeKept(CommaSerialize(r));
    QueryOfTarget(pathname, CommaSerialize(r));
    CommaEncodeLiteral(SanitizeZoneInput(input));
  }

  /**
   * After `commitColorsToUrl` the page's `colors` is the serialized text, or
   * absent when that is empty, and every other parameter is as it was.
   */
  lemma ColorsTargetRoundTrip(pathname: string, ps: Params, serialized: string)
    requires UrlPath(pathname) && AsciiParams(ps) && AllAscii(serialized)
    ensures Get(ParamsAfter(ColorsTarget(pathname, ps, serialized)), "colors")
         == if serialized != "" then Some(serialized) else None
    ensures forall other :: other != "colors" ==>
              Get(ParamsAfter(ColorsTarget(pathname, ps, serialized)), other) == Get(ps, other)
  {
    WriteRoundTrip(pathname, ps, "colors", serialized);
  }

  // ---------------------------------------------------------------------------
  // Colours
  // ---------------------------------------------------------------------------

  /** `/^#([0-9a-fA-F]{3}|[0-9a-fA-F]{6})$/`. */
  predicate IsHexColor(s: string)
    ensures IsHexColor(s) ==> (|s| == 4 || |s| == 7) && s[0] == '#'
    ensures IsHexColor(s) ==> forall i :: 1 <= i < |s| ==> IsHexDigit(s[i])
  {
    (|s| == 4 || |s| == 7) && s[0] == '#' && forall i :: 1 <= i < |s| ==> IsHexDigit(s[i])
  }

  const DefaultColor := "#404040"

  /** `a || b` on strings, where the empty string is falsy. */
  function Or(a: string, b: string): (r: string)
    ensures r == "" <==> a == "" && b == ""
  {
    if a != "" then a else b
  }

  /** `m[key]`, an absent key reading as the falsy `undefined`. */
  function Lookup(m: map<string, string>, key: string): string
  {
    if key in m then m[key] else ""
  }

  /**
   * The colour both inputs of a type show: its staged colour, else the hex
   * of its default colour (`fallback`, empty when the table has none), else
   * `#404040`. It is never empty.
   */
  function Displayed(staged: map<string, string>, key: string, fallback: string): (r: string)
    ensures r != ""
    ensures Lookup(staged, key) != "" ==> r == staged[key]
    ensures Lookup(staged, key) == "" && fallback != "" ==> r == fallback
    ensures Lookup(staged, key) == "" && fallback == "" ==> r == DefaultColor
  {
    Or(Or(Lookup(staged, key), fallback), DefaultColor)
  }

  /** The staged colours after the hex text of `key` loses focus holding `val`. */
  function BlurStaged(staged: map<string, string>, key: string, val: string, fallback: string): (r: map<string, string>)
    ensures IsHexColor(val) ==> r == staged
    ensures !IsHexColor(val) ==> key in r && r[key] != ""
    ensures r.Keys == staged.Keys + (if IsHexColor(val) then {} else {key})
  {
    if IsHexColor(val) then staged else staged[key := Displayed(staged, key, fallback)]
  }

  /**
   * A blur changes no key but `key`, leaves what every input shows as it
   * was, and leaves a non-empty colour staged for `key` when the text was
   * invalid.
   */
  lemma BlurStagedSpec(staged: map<string, string>, key: string, val: string, fallback: string)
    ensures var r := BlurStaged(staged, key, val, fallback);
            && (forall k :: k != key ==> (k in r <==> k in staged) && Lookup(r, k) == Lookup(staged, k))
            && Displayed(r, key, fallback) == Displayed(staged, key, fallback)
            && (forall k, fb :: k != key ==> Displayed(r, k, fb) == Displayed(staged, k, fb))
            && (!IsHexColor(val) ==> key in r && r[key] != "")
            && (IsHexColor(val) ==> r == staged)
  {
  }

  /** A second blur with the same text changes nothing more. */
  lemma BlurStagedIdempotent(staged: map<string, string>, key: string, val: string, fallback: string)
    ensures BlurStaged(BlurStaged(staged, key, val, fallback), key, val, fallback) == BlurStaged(staged, key, val, fallback)
  {
    if !IsHexColor(val) {
      var r := BlurStaged(staged, key, val, fallback);
      assert Displayed(r, key, fallback) == Displayed(staged, key, fallback);
      assert r[key := Displayed(r, key, fallback)] == r;
    }
  }

  /** `searchParams.get("colors") || undefined`: the text, or nothing when it is missing or empty. */
  function ColorsParam(ps: Params): (r: Option<string>)
    ensures r.Some? ==> r.value != "" && Get(ps, "colors") == r
    ensures r.None? ==> Get(ps, "colors").None? || Get(ps, "colors") == Some("")
  {
    match Get(ps, "colors")
    case None => None
    case Some(v) => if v == "" then None else Some(v)
  }

  /** `searchParams.get("zone") || ""`. */
  function ZoneParam(ps: Params): (r: string)
    ensures Get(ps, "zone").Some? ==> r == Get(ps, "zone").value
    ensures Get(ps, "zone").None? ==> r == ""
  {
    match Get(ps, "zone")
    case None => ""
    case Some(v) => v
  }

  /**
   * The dialog for one address: the parameters it was rendered with, the
   * helpers it is given, the zone text field, the staged colours, whether it
   * is open, the badge checkbox, and the targets it gave `router.replace`.
   */
  class SettingsDialog {
    const pathname: string
    const params: Params
    const parseColors: Option<string> -> map<string, string>
    const serializeColors: map<string, string> -> string
    const isPassive: Params -> bool
    const setPassive: (Params, bool) -> Params

    var zoneInput: string
    var staged: map<string, string>
    var dialogOpen: bool
    var showNewBadge: bool
    var replaced: seq<string>

    constructor (pathname: string, params: Params,
                 parseColors: Option<string> -> map<string, string>,
                 serializeColors: map<string, string> -> string,
                 isPassive: Params -> bool,
                 setPassive: (Params, bool) -> Params)
      ensures this.pathname == pathname && this.params == params
      ensures this.parseColors == parseColors && this.serializeColors == serializeColors
      ensures this.isPassive == isPassive && this.setPassive == setPassive
      ensures zoneInput == ZoneParam(params)
      ensures staged == parseColors(ColorsParam(params))
      ensures !dialogOpen
      ensures showNewBadge == !isPassive(params)
      ensures replaced == []
    {
      this.pathname := pathname;
      this.params := params;
      this.parseColors := parseColors;
      this.serializeColors := serializeColors;
      this.isPassive := isPassive;
      this.setPassive := setPassive;
      zoneInput := ZoneParam(params);
      staged := parseColors(ColorsParam(params));
      dialogOpen := false;
      showNewBadge := !isPassive(params);
      replaced := [];
    }

    /** `handleDialogOpenChange`: opening re-reads the staged colours from the URL; neither opening nor closing navigates. */
    method OpenChange(open: bool)
      modifies this
      ensures staged == if open then parseColors(ColorsParam(params)) else old(staged)
      ensures dialogOpen == open
      ensures zoneInput == old(zoneInput) && showNewBadge == old(showNewBadge) && replaced == old(replaced)
    {
      if open {
        staged := parseColors(ColorsParam(params));
      }
      dialogOpen := open;
    }

    /** `handleShowNewBadgeChange`: the checkbox follows the click and the page becomes passive exactly when it is unchecked. */
    method ShowNewBadgeChange(checked: bool)
      modifies this
      ensures showNewBadge == checked
      ensures replaced == old(replaced) + [Target(pathname, FormSerialize(setPassive(params, !checked)))]
      ensures zoneInput == old(zoneInput) && staged == old(staged) && dialogOpen == old(dialogOpen)
    {
      showNewBadge := checked;
      var ps := setPassive(params, !checked);
      replaced := replaced + [Target(pathname, FormSerialize(ps))];
    }

    /**
     * What `updateZoneParam` and `commitColorsToUrl` both do: copy the
     * parameters, set `name` to `value` or delete it when `value` is empty,
     * turn every `%2C` of the serialization back into a comma, and navigate.
     */
    method WriteParam(name: string, value: string)
      modifies this
      ensures replaced == old(replaced) + [CommaTarget(pathname, SetOrDelete(params, name, value))]
      ensures zoneInput == old(zoneInput) && staged == old(staged)
      ensures dialogOpen == old(dialogOpen) && showNewBadge == old(showNewBadge)
    {
      var ps := new SearchParamList(params);
      if value != "" {
        ps.Set(name, value);
      } else {
        ps.Delete(name);
      }
      assert ps.list == SetOrDelete(params, name, value);
      var queryString := UnescapeCommas(ps.ToString());
      replaced := replaced + [Target(pathname, queryString)];
    }

    /** `updateZoneParam(newZone)`: the sanitised zone written to the URL and shown in the field. */
    method UpdateZoneParam(newZone: string)
      modifies this
      ensures replaced == old(replaced) + [ZoneTarget(pathname, params, newZone)]
      ensures zoneInput == SanitizeZoneInput(newZone)
      ensures staged == old(staged) && dialogOpen == old(dialogOpen) && showNewBadge == old(showNewBadge)
    {
      var sanitized := SanitizeZoneInput(newZone);
      WriteParam("zone", sanitized);
      zoneInput := sanitized;
    }

    /** `handleZoneInputChange`: the typed text with its whitespace removed. */
    method ZoneInputChange(value: string)
      modifies this
      ensures zoneInput == StripSpaces(value)
      ensures NoSpace(zoneInput)
      ensures staged == old(staged) && replaced == old(replaced) && dialogOpen == old(dialogOpen)
      ensures showNewBadge == old(showNewBadge)
    {
      zoneInput := StripSpaces(value);
    }

    /** `handleZoneInputKeyDown`: Enter writes the zone; any other key does nothing here. */
    method ZoneKeyDown(key: string)
      modifies this
      ensures key == "Enter" ==>
                replaced == old(replaced) + [ZoneTarget(pathname, params, old(zoneInput))]
                && zoneInput == SanitizeZoneInput(old(zoneInput))
      ensures key != "Enter" ==> replaced == old(replaced) && zoneInput == old(zoneInput)
      ensures staged == old(staged) && dialogOpen == old(dialogOpen) && showNewBadge == old(showNewBadge)
    {
      if key == "Enter" {
        UpdateZoneParam(zoneInput);
      }
    }

    /** `handleZoneInputBlur`. */
    method ZoneBlur()
      modifies this
      ensures replaced == old(replaced) + [ZoneTarget(pathname, params, old(zoneInput))]
      ensures zoneInput == SanitizeZoneInput(old(zoneInput))
      ensures staged == old(staged) && dialogOpen == old(dialogOpen) && showNewBadge == old(showNewBadge)
    {
      UpdateZoneParam(zoneInput);
    }

    /** `handleColorChange(key, hex)`: only `key` is staged anew. */
    method ColorChange(key: string, hex: string)
      modifies this
      ensures staged == old(staged)[key := hex]
      ensures zoneInput == old(zoneInput) && replaced == old(replaced) && dialogOpen == old(dialogOpen)
      ensures showNewBadge == old(showNewBadge)
    {
      staged := staged[key := hex];
    }

    /** `handleResetColors`: nothing staged. */
    method ResetColors()
      modifies this
      ensures staged == map[]
      ensures zoneInput == old(zoneInput) && replaced == old(replaced) && dialogOpen == old(dialogOpen)
      ensures showNewBadge == old(showNewBadge)
    {
      staged := map[];
    }

    /** The hex text's `onChange`: valid or not, the typed text is staged for `key`. */
    method HexTextChange(key: string, val: string)
      modifies this
      ensures staged == old(staged)[key := val]
      ensures zoneInput == old(zoneInput) && replaced == old(replaced) && dialogOpen == old(dialogOpen)
      ensures showNewBadge == old(showNewBadge)
    {
      if IsHexColor(val) {
        ColorChange(key, val);
      } else {
        staged := staged[key := val];
      }
    }

    /** The hex text's `onBlur`; `fallback` is the hex of the type's default colour, empty when it has none. */
    method HexTextBlur(key: string, val: string, fallback: string)
      modifies this
      ensures staged == BlurStaged(old(staged), key, val, fallback)
      ensures zoneInput == old(zoneInput) && replaced == old(replaced) && dialogOpen == old(dialogOpen)
      ensures showNewBadge == old(showNewBadge)
    {
      if !IsHexColor(val) {
        staged := staged[key := Displayed(staged, key, fallback)];
      }
    }

    /** `commitColorsToUrl`: the staged colours, serialized, written to `colors`. */
    method CommitColorsToUrl()
      modifies this
      ensures replaced == old(replaced) + [ColorsTarget(pathname, params, serializeColors(staged))]
      ensures zoneInput == old(zoneInput) && staged == old(staged) && dialogOpen == old(dialogOpen)
      ensures showNewBadge == old(showNewBadge)
    {
      var serialized := serializeColors(staged);
      WriteParam("colors", serialized);
    }

    /**
     * The Close button: the zone, then the colours, each written from the
     * parameters the dialog was rendered with.
     */
    method CloseButton()
      modifies this
      ensures replaced == old(replaced) + [ZoneTarget(pathname, params, old(zoneInput)),
                                           ColorsTarget(pathname, params, serializeColors(old(staged)))]
      ensures zoneInput == SanitizeZoneInput(old(zoneInput)) && staged == old(staged)
      ensures dialogOpen == old(dialogOpen) && showNewBadge == old(showNewBadge)
    {
      UpdateZoneParam(zoneInput);
      CommitColorsToUrl();
    }
  }
}
