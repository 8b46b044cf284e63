/**
 * The filter logic of the application menu as functions of the current query
 * parameters: reading the `state`, `wfo` and `type` selections, the pairs the
 * shareable-link normaliser produces, the query `updateURL` and
 * `updateURLWithTypes` build, the checkbox reducers, the labels, the search
 * filter and the badge total.
 */
module MenuQuery {
  import opened Wrappers
  import opened Text
  import opened Lists
  import opened UrlEncoding
  import opened SearchParams

  /** An entry of the state table or of the office-name table. */
  datatype Listing = Listing(code: string, name: string)

  /** An entry of the alert-type table; `title` is its `label`. */
  datatype AlertType = AlertType(key: string, title: string)

  const Cont := "CONT"
  const TorEmergency := "TOR_EMERGENCY"
  const StateWfo: set<string> := {"state", "wfo"}
  const StateWfoType: set<string> := {"state", "wfo", "type"}

  lemma KeyNames()
    ensures Lower("state") == "state" && Lower("wfo") == "wfo" && Lower("type") == "type"
  {
    LowerFixed("state");
    LowerFixed("wfo");
    LowerFixed("type");
  }

  // ---------------------------------------------------------------------------
  // Reading a selection
  // ---------------------------------------------------------------------------

  /** A piece as a selection keeps it: upper-cased for states and offices, unchanged for types. */
  function Cased(s: string, upper: bool): string
  {
    if upper then Upper(s) else s
  }

  function CasedAll(xs: seq<string>, upper: bool): (r: seq<string>)
    ensures |r| == |xs|
    ensures forall i :: 0 <= i < |xs| ==> r[i] == Cased(xs[i], upper)
  {
    seq(|xs|, i requires 0 <= i < |xs| => Cased(xs[i], upper))
  }

  lemma {:induction false} JoinCased(xs: seq<string>, upper: bool)
    ensures Join(CasedAll(xs, upper), ',') == Cased(Join(xs, ','), upper)
    decreases |xs|
  {
    if |xs| >= 2 {
      JoinCased(xs[1..], upper);
      assert CasedAll(xs, upper)[1..] == CasedAll(xs[1..], upper);
      if upper {
        UpperAppend(xs[0] + [','], Join(xs[1..], ','));
        UpperAppend(xs[0], [',']);
        assert Upper([',']) == [','];
      }
    }
  }

  lemma UpperKeeps(s: string, c: char)
    requires c !in s && !IsAsciiUpper(c)
    ensures c !in Upper(s)
  {
    assert forall i :: 0 <= i < |s| ==> Upper(s)[i] != c;
  }

  lemma CasedKeepComma(xs: seq<string>, upper: bool)
    requires forall i :: 0 <= i < |xs| ==> ',' !in xs[i]
    ensures forall i :: 0 <= i < |xs| ==> ',' !in CasedAll(xs, upper)[i]
  {
    forall i | 0 <= i < |xs|
      ensures ',' !in CasedAll(xs, upper)[i]
    {
      if upper {
        UpperKeeps(xs[i], ',');
      }
    }
  }

  /**
   * The selection the menu reads from the first parameter named exactly `key`:
   * empty when that parameter is missing or empty; otherwise its value decoded
   * and split at every comma (empty pieces kept), each piece upper-cased when
   * `upper` holds; `None` when decoding throws.
   */
  function ReadSelection(ps: Params, key: string, upper: bool): (r: Option<seq<string>>)
    ensures r.None? <==> Get(ps, key).Some? && Get(ps, key).value != ""
                         && DecodeURIComponent(Get(ps, key).value).None?
    ensures Get(ps, key).None? || Get(ps, key) == Some("") ==> r == Some([])
    ensures r.Some? && Get(ps, key).Some? && Get(ps, key).value != "" ==>
              |r.value| >= 1 && Join(r.value, ',') == Cased(DecodeURIComponent(Get(ps, key).value).value, upper)
    ensures r.Some? ==> forall i :: 0 <= i < |r.value| ==> ',' !in r.value[i]
    ensures r.Some? && upper ==> forall i :: 0 <= i < |r.value| ==> NoLower(r.value[i])
  {
    match Get(ps, key)
    case None => Some([])
    case Some(v) =>
      if v == "" then Some([])
      else match DecodeURIComponent(v)
        case None => None
        case Some(d) =>
          var pieces := Split(d, ',');
          JoinSplit(d, ',');
          JoinCased(pieces, upper);
          CasedKeepComma(pieces, upper);
          Some(CasedAll(pieces, upper))
  }

  // ---------------------------------------------------------------------------
  // The shareable-link normaliser
  // ---------------------------------------------------------------------------

  /** The non-empty pieces (`filter(Boolean)`). */
  function NonEmpty(xs: seq<string>): (r: seq<string>)
    ensures forall i :: 0 <= i < |r| ==> r[i] != ""
  {
    Filter(xs, x => x != "")
  }

  /** Both lists, one after the other, when neither computation threw. */
  function Combine(x: Option<seq<string>>, y: Option<seq<string>>): Option<seq<string>>
  {
    if x.Some? && y.Some? then Some(x.value + y.value) else None
  }

  lemma CombineAssoc(x: Option<seq<string>>, y: Option<seq<string>>, z: Option<seq<string>>)
    ensures Combine(Combine(x, y), z) == Combine(x, Combine(y, z))
  {
    if x.Some? && y.Some? && z.Some? {
      assert (x.value + y.value) + z.value == x.value + (y.value + z.value);
    }
  }

  /** `decodeURIComponent(value).split(",")` with the empty pieces dropped; `None` when decoding throws. */
  function ValuePieces(value: string): (r: Option<seq<string>>)
    ensures r.None? <==> DecodeURIComponent(value).None?
    ensures r.Some? ==> forall i :: 0 <= i < |r.value| ==> r.value[i] != "" && ',' !in r.value[i]
  {
    match DecodeURIComponent(value)
    case None => None
    case Some(d) =>
      FilterKeeps(Split(d, ','), x => x != "", x => ',' !in x);
      Some(NonEmpty(Split(d, ',')))
  }

  /**
   * The pieces of every value whose key lower-cases to `key`, in order of
   * occurrence; `None` when decoding one of those values throws.
   */
  function Pieces(entries: Params, key: string): (r: Option<seq<string>>)
    ensures r.Some? ==> forall i :: 0 <= i < |r.value| ==> r.value[i] != "" && ',' !in r.value[i]
    ensures (forall i :: 0 <= i < |entries| ==> Lower(entries[i].0) != key) ==> r == Some([])
    decreases |entries|
  {
    if entries == [] then Some([])
    else
      var rest := Pieces(entries[1..], key);
      assert forall i :: 0 <= i < |entries[1..]| ==> entries[1..][i] == entries[i + 1];
      if Lower(entries[0].0) != key then rest else Combine(ValuePieces(entries[0].1), rest)
  }

  /** Collecting the pieces fails exactly when one of the values under a matching key does not decode. */
  lemma {:induction false} PiecesFail(entries: Params, key: string)
    ensures Pieces(entries, key).None? <==> exists i :: 0 <= i < |entries| && Lower(entries[i].0) == key
                                                    && DecodeURIComponent(entries[i].1).None?
    decreases |entries|
  {
    if entries != [] {
      PiecesFail(entries[1..], key);
      assert forall i :: 0 <= i < |entries[1..]| ==> entries[1..][i] == entries[i + 1];
      if Pieces(entries[1..], key).None? {
        var i :| 0 <= i < |entries[1..]| && Lower(entries[1..][i].0) == key
                 && DecodeURIComponent(entries[1..][i].1).None?;
        assert entries[i + 1] == entries[1..][i];
      }
    }
  }

  /** The pieces of a concatenation are the pieces of each part, in order. */
  lemma {:induction false} PiecesAppend(a: Params, b: Params, key: string)
    ensures Pieces(a + b, key) == Combine(Pieces(a, key), Pieces(b, key))
    decreases |a|
  {
    if a == [] {
      assert a + b == b;
      if Pieces(b, key).Some? {
        assert [] + Pieces(b, key).value == Pieces(b, key).value;
      }
    } else {
      assert (a + b)[0] == a[0];
      assert (a + b)[1..] == a[1..] + b;
      PiecesAppend(a[1..], b, key);
      if Lower(a[0].0) == key {
        CombineAssoc(ValuePieces(a[0].1), Pieces(a[1..], key), Pieces(b, key));
      }
    }
  }

  /** `[key, list.join(",")]` when the list is non-empty, nothing otherwise. */
  function Entry(key: string, xs: seq<string>): (r: Params)
    ensures |r| <= 1 && (r == [] <==> xs == [])
    ensures forall i :: 0 <= i < |r| ==> r[i].0 == key
  {
    if xs == [] then [] else [(key, Join(xs, ','))]
  }

  /** The value `get` finds under a key whose entry was built from `xs`. */
  function Joined(xs: seq<string>): (r: Option<string>)
    ensures r.None? <==> xs == []
  {
    if xs == [] then None else Some(Join(xs, ','))
  }

  /** The pairs whose key, lower-cased, is none of `names`, in their order. */
  function OtherPairs(ps: Params, names: set<string>): (r: Params)
    ensures forall i :: 0 <= i < |r| ==> Lower(r[i].0) !in names
    ensures (forall i :: 0 <= i < |ps| ==> Lower(ps[i].0) !in names) ==> r == ps
  {
    Filter(ps, (p: Pair) => Lower(p.0) !in names)
  }

  /**
   * The pairs `formatQueryParams` collects in its fresh `URLSearchParams`;
   * `None` when one of the decodings throws.
   */
  function FormatPairs(entries: Params): (r: Option<Params>)
    ensures r.None? <==> Pieces(entries, "state").None? || Pieces(entries, "wfo").None?
    ensures r.Some? ==> |r.value| <= |entries| + 2
  {
    match Pieces(entries, "state")
    case None => None
    case Some(states) =>
      match Pieces(entries, "wfo")
      case None => None
      case Some(offices) => Some(Entry("state", states) + Entry("wfo", offices) + OtherPairs(entries, StateWfo))
  }

  /** No key of `ps` lower-cases into `names`, so none is literally `state` or `wfo`. */
  lemma OthersHaveNoStateWfo(ps: Params, names: set<string>)
    requires "state" in names && "wfo" in names
    requires forall i :: 0 <= i < |ps| ==> Lower(ps[i].0) !in names
    ensures !HasName(ps, "state") && !HasName(ps, "wfo")
  {
    KeyNames();
    NoName(ps, "state");
    NoName(ps, "wfo");
  }

  /** `get` of the key of an entry finds its joined list, or what follows when the list is empty. */
  lemma GetEntry(key: string, xs: seq<string>, rest: Params)
    ensures Get(Entry(key, xs) + rest, key) == if xs == [] then Get(rest, key) else Joined(xs)
  {
    if xs == [] {
      assert Entry(key, xs) + rest == rest;
    }
  }

  /** `get` of another key looks past an entry. */
  lemma GetPastEntry(key: string, xs: seq<string>, rest: Params, k: string)
    requires k != key
    ensures Get(Entry(key, xs) + rest, k) == Get(rest, k)
  {
    if xs == [] {
      assert Entry(key, xs) + rest == rest;
    } else {
      assert (Entry(key, xs) + rest)[1..] == rest;
    }
  }

  /** What `get` finds in a state entry, a wfo entry and pairs of other keys. */
  lemma StateWfoGet(states: seq<string>, offices: seq<string>, others: Params)
    requires forall i :: 0 <= i < |others| ==> Lower(others[i].0) !in StateWfo
    ensures Get(Entry("state", states) + Entry("wfo", offices) + others, "state") == Joined(states)
    ensures Get(Entry("state", states) + Entry("wfo", offices) + others, "wfo") == Joined(offices)
    ensures forall k :: Lower(k) !in StateWfo ==>
              Get(Entry("state", states) + Entry("wfo", offices) + others, k) == Get(others, k)
  {
    KeyNames();
    var stateEntry := Entry("state", states);
    var wfoEntry := Entry("wfo", offices);
    Regroup3(stateEntry, wfoEntry, others);
    OthersHaveNoStateWfo(others, StateWfo);
    GetPastEntry("wfo", offices, others, "state");
    GetEntry("state", states, wfoEntry + others);
    GetPastEntry("state", states, wfoEntry + others, "wfo");
    GetEntry("wfo", offices, others);
    forall k | Lower(k) !in StateWfo
      ensures Get(stateEntry + (wfoEntry + others), k) == Get(others, k)
    {
      GetPastEntry("state", states, wfoEntry + others, k);
      GetPastEntry("wfo", offices, others, k);
    }
  }

  /** In a state entry, a wfo entry and pairs of other keys, only the first pair can be a state pair and only the last entry a wfo pair. */
  lemma StateWfoPositions(states: seq<string>, offices: seq<string>, others: Params)
    requires forall i :: 0 <= i < |others| ==> Lower(others[i].0) !in StateWfo
    ensures var r := Entry("state", states) + Entry("wfo", offices) + others;
            var n := |r| - |others|;
            && 0 <= n <= 2
            && r[n..] == others
            && (forall i :: 0 <= i < |r| && Lower(r[i].0) == "state" ==> i == 0)
            && (forall i :: 0 <= i < |r| && Lower(r[i].0) == "wfo" ==> i == n - 1)
  {
    KeyNames();
    var head := Entry("state", states) + Entry("wfo", offices);
    var r := head + others;
    assert r[|head|..] == others;
    assert forall i :: |head| <= i < |r| ==> r[i] == others[i - |head|];
  }

  /**
   * The normalised link holds at most one `state` pair, first, whose value
   * joins all the state pieces (absent when there are none); at most one
   * `wfo` pair, right after it, likewise; and then every other original pair
   * unchanged and in its original order, none of them a state or wfo pair in
   * any case. It fails exactly when decoding a state or wfo value throws.
   */
  lemma FormatPairsSpec(entries: Params)
    ensures FormatPairs(entries).None? <==> Pieces(entries, "state").None? || Pieces(entries, "wfo").None?
    ensures FormatPairs(entries).Some? ==>
              var r := FormatPairs(entries).value;
              var n := |r| - |OtherPairs(entries, StateWfo)|;
              && 0 <= n <= 2
              && r[n..] == OtherPairs(entries, StateWfo)
              && Get(r, "state") == Joined(Pieces(entries, "state").value)
              && Get(r, "wfo") == Joined(Pieces(entries, "wfo").value)
              && (forall i :: 0 <= i < |r| && Lower(r[i].0) == "state" ==> i == 0)
              && (forall i :: 0 <= i < |r| && Lower(r[i].0) == "wfo" ==> i == n - 1)
  {
    if FormatPairs(entries).Some? {
      var states := Pieces(entries, "state").value;
      var offices := Pieces(entries, "wfo").value;
      var others := OtherPairs(entries, StateWfo);
      StateWfoGet(states, offices, others);
      StateWfoPositions(states, offices, others);
    }
  }

  /** Pieces of values without escapes are free of `%` too. */
  lemma {:induction false} PiecesNoPercent(entries: Params, key: string)
    requires forall i :: 0 <= i < |entries| ==> '%' !in entries[i].1
    ensures Pieces(entries, key).Some?
    ensures forall i :: 0 <= i < |Pieces(entries, key).value| ==> '%' !in Pieces(entries, key).value[i]
    decreases |entries|
  {
    if entries != [] {
      PiecesNoPercent(entries[1..], key);
      if Lower(entries[0].0) == key {
        var v := entries[0].1;
        DecodeNoPercent(v);
        SplitKeeps(v, ',', '%');
        FilterKeeps(Split(v, ','), x => x != "", x => '%' !in x);
        assert ValuePieces(v) == Some(NonEmpty(Split(v, ',')));
      }
    }
  }

  /** Reading back the entry a non-empty piece list was joined into gives the list. */
  lemma EntryPieces(key: string, xs: seq<string>, rest: Params)
    requires Lower(key) == key
    requires xs != []
    requires forall i :: 0 <= i < |xs| ==> xs[i] != "" && ',' !in xs[i] && '%' !in xs[i]
    requires Pieces(rest, key) == Some([])
    ensures Pieces(Entry(key, xs) + rest, key) == Some(xs)
  {
    var e := Entry(key, xs) + rest;
    var j := Join(xs, ',');
    assert e[0] == (key, j);
    assert e[1..] == rest;
    JoinKeeps(xs, ',', '%');
    DecodeNoPercent(j);
    SplitJoin(xs, ',');
    assert ValuePieces(j) == Some(xs);
    assert xs + [] == xs;
  }

  predicate CleanPieces(xs: seq<string>)
  {
    forall i :: 0 <= i < |xs| ==> xs[i] != "" && ',' !in xs[i] && '%' !in xs[i]
  }

  /** An entry under another key contributes no pieces. */
  lemma EntryPiecesOther(k: string, xs: seq<string>, key: string)
    requires Lower(k) != key
    ensures Pieces(Entry(k, xs), key) == Some([])
  {
    if xs != [] {
      assert Entry(k, xs)[1..] == [];
    }
  }

  lemma NoStateWfoPieces(others: Params, key: string)
    requires key in StateWfo
    requires forall i :: 0 <= i < |others| ==> Lower(others[i].0) !in StateWfo
    ensures Pieces(others, key) == Some([])
  {
  }

  lemma FormattedStatePieces(states: seq<string>, offices: seq<string>, others: Params)
    requires CleanPieces(states)
    requires forall i :: 0 <= i < |others| ==> Lower(others[i].0) !in StateWfo
    ensures Pieces(Entry("state", states) + Entry("wfo", offices) + others, "state") == Some(states)
  {
    KeyNames();
    var stateEntry := Entry("state", states);
    var wfoEntry := Entry("wfo", offices);
    NoStateWfoPieces(others, "state");
    EntryPiecesOther("wfo", offices, "state");
    PiecesAppend(wfoEntry, others, "state");
    assert Pieces(wfoEntry + others, "state") == Some([]);
    PiecesAppend(stateEntry, wfoEntry + others, "state");
    Regroup3(stateEntry, wfoEntry, others);
    if states != [] {
      EntryPieces("state", states, []);
      assert stateEntry + [] == stateEntry;
    }
    assert states + [] == states;
  }

  lemma FormattedWfoPieces(states: seq<string>, offices: seq<string>, others: Params)
    requires CleanPieces(offices)
    requires forall i :: 0 <= i < |others| ==> Lower(others[i].0) !in StateWfo
    ensures Pieces(Entry("state", states) + Entry("wfo", offices) + others, "wfo") == Some(offices)
  {
    KeyNames();
    var stateEntry := Entry("state", states);
    var wfoEntry := Entry("wfo", offices);
    NoStateWfoPieces(others, "wfo");
    EntryPiecesOther("state", states, "wfo");
    PiecesAppend(stateEntry + wfoEntry, others, "wfo");
    PiecesAppend(stateEntry, wfoEntry, "wfo");
    if offices != [] {
      EntryPieces("wfo", offices, []);
      assert wfoEntry + [] == wfoEntry;
    }
    assert [] + offices == offices;
    assert offices + [] == offices;
  }

  lemma FormattedOthers(states: seq<string>, offices: seq<string>, others: Params)
    requires forall i :: 0 <= i < |others| ==> Lower(others[i].0) !in StateWfo
    ensures OtherPairs(Entry("state", states) + Entry("wfo", offices) + others, StateWfo) == others
  {
    KeyNames();
    OtherPairsAfterEntries(Entry("state", states) + Entry("wfo", offices), others, StateWfo);
  }

  /**
   * Normalising a link whose values hold no escapes succeeds, and normalising
   * its result again changes nothing.
   */
  lemma FormatPairsIdempotent(entries: Params)
    requires forall i :: 0 <= i < |entries| ==> '%' !in entries[i].1
    ensures FormatPairs(entries).Some?
    ensures FormatPairs(FormatPairs(entries).value) == FormatPairs(entries)
  {
    PiecesNoPercent(entries, "state");
    PiecesNoPercent(entries, "wfo");
    var states := Pieces(entries, "state").value;
    var offices := Pieces(entries, "wfo").value;
    var others := OtherPairs(entries, StateWfo);
    FormattedStatePieces(states, offices, others);
    FormattedWfoPieces(states, offices, others);
    FormattedOthers(states, offices, others);
  }

  /** The other pairs of a concatenation are those of each part, in order. */
  lemma OtherPairsAppend(a: Params, b: Params, names: set<string>)
    ensures OtherPairs(a + b, names) == OtherPairs(a, names) + OtherPairs(b, names)
  {
    FilterAppend(a, b, (p: Pair) => Lower(p.0) !in names);
  }

  /** One pair is kept among the others exactly when its key is none of `names`. */
  lemma OtherPairsSingle(p: Pair, names: set<string>)
    ensures OtherPairs([p], names) == if Lower(p.0) !in names then [p] else []
  {
    assert [p][1..] == [];
  }

  /** Pieces of ASCII values without escapes are ASCII. */
  lemma {:induction false} PiecesAscii(entries: Params, key: string)
    requires forall i :: 0 <= i < |entries| ==> '%' !in entries[i].1 && AllAscii(entries[i].1)
    ensures Pieces(entries, key).Some?
    ensures forall i :: 0 <= i < |Pieces(entries, key).value| ==> AllAscii(Pieces(entries, key).value[i])
    decreases |entries|
  {
    if entries != [] {
      PiecesAscii(entries[1..], key);
      if Lower(entries[0].0) == key {
        var v := entries[0].1;
        DecodeNoPercent(v);
        SplitAscii(v, ',');
        FilterKeeps(Split(v, ','), x => x != "", AllAscii);
        assert ValuePieces(v) == Some(NonEmpty(Split(v, ',')));
      }
    }
  }

  lemma EntryAscii(key: string, xs: seq<string>)
    requires AllAscii(key)
    requires forall i :: 0 <= i < |xs| ==> AllAscii(xs[i])
    ensures AsciiParams(Entry(key, xs))
  {
    JoinAscii(xs, ',');
  }

  lemma OtherPairsAscii(ps: Params, names: set<string>)
    requires AsciiParams(ps)
    ensures AsciiParams(OtherPairs(ps, names))
  {
    FilterKeeps(ps, (p: Pair) => Lower(p.0) !in names, (p: Pair) => AllAscii(p.0) && AllAscii(p.1));
  }

  lemma AsciiAppend(a: Params, b: Params)
    requires AsciiParams(a) && AsciiParams(b)
    ensures AsciiParams(a + b)
  {
    assert forall i :: |a| <= i < |a + b| ==> (a + b)[i] == b[i - |a|];
  }

  /** The pairs `formatQueryParams` builds from ASCII pairs without escapes are ASCII. */
  lemma FormatPairsAscii(entries: Params)
    requires forall i :: 0 <= i < |entries| ==> '%' !in entries[i].1
    requires AsciiParams(entries)
    ensures FormatPairs(entries).Some? && AsciiParams(FormatPairs(entries).value)
  {
    PiecesAscii(entries, "state");
    PiecesAscii(entries, "wfo");
    var states := Pieces(entries, "state").value;
    var offices := Pieces(entries, "wfo").value;
    EntryAscii("state", states);
    EntryAscii("wfo", offices);
    OtherPairsAscii(entries, StateWfo);
    AsciiAppend(Entry("state", states), Entry("wfo", offices));
    AsciiAppend(Entry("state", states) + Entry("wfo", offices), OtherPairs(entries, StateWfo));
  }

  /** The text `formatQueryParams` returns: the serialized pairs, decoded; `None` when a decoding throws. */
  function FormatLink(entries: Params): (r: Option<string>)
    ensures FormatPairs(entries).None? ==> r.None?
  {
    match FormatPairs(entries)
    case None => None
    case Some(ps) => DecodeURIComponent(FormSerialize(ps))
  }

  const Origin := "https://overwarn.mirra.tv"

  /**
   * The shareable link: the page's address with the normalised query, when
   * the page has one; `None` when normalising throws.
   */
  function ShareLink(pathname: string, params: Params): (r: Option<string>)
    ensures params == [] ==> r == Some(Origin + pathname)
    ensures r.Some? ==> StartsWith(r.value, Origin + pathname)
  {
    var base := Origin + pathname;
    if FormSerialize(params) == "" then Some(base)
    else match FormatLink(params)
      case None => None
      case Some(q) =>
        StartsWithAppend(base, "?" + q);
        Some(base + ("?" + q))
  }

  /**
   * For ASCII parameters without escapes the link never fails: its query is
   * the normalised pairs written `key=value` joined by `&`, with each space
   * shown as `+` and each comma kept as it is.
   */
  lemma ShareLinkPlain(pathname: string, params: Params)
    requires params != []
    requires AsciiParams(params)
    requires forall i :: 0 <= i < |params| ==> '%' !in params[i].1
    ensures FormatPairs(params).Some?
    ensures ShareLink(pathname, params) == Some(Origin + pathname + "?" + RenderQuery(PlusPairs(FormatPairs(params).value)))
  {
    FormatPairsAscii(params);
    var pairs := FormatPairs(params).value;
    DecodeSerialized(pairs);
    Regroup3(Origin + pathname, "?", RenderQuery(PlusPairs(pairs)));
  }

  // ---------------------------------------------------------------------------
  // Rebuilding the query: `updateURL` and `updateURLWithTypes`
  // ---------------------------------------------------------------------------

  /**
   * The pairs of the query `updateURL(states, offices)` writes: none exactly
   * when both lists are empty and no other parameter exists, and at most two
   * more than there were.
   */
  function UrlPairs(ps: Params, states: seq<string>, offices: seq<string>): (r: Params)
    ensures r == [] <==> states == [] && offices == [] && OtherPairs(ps, StateWfo) == []
    ensures |r| <= |ps| + 2
  {
    Entry("state", states) + Entry("wfo", offices) + OtherPairs(ps, StateWfo)
  }

  /**
   * The pairs of the query `updateURLWithTypes(types)` writes: none exactly
   * when the three lists are empty and no other parameter exists, and at most
   * three more than there were.
   */
  function TypeUrlPairs(ps: Params, states: seq<string>, offices: seq<string>, types: seq<string>): (r: Params)
    ensures r == [] <==> states == [] && offices == [] && types == [] && OtherPairs(ps, StateWfoType) == []
    ensures |r| <= |ps| + 3
  {
    Entry("state", states) + Entry("wfo", offices) + Entry("type", types) + OtherPairs(ps, StateWfoType)
  }

  /**
   * The target `updateURL` hands to `router.replace`: the pairs written
   * `key=value` without any encoding. It is the bare pathname exactly when
   * both lists are empty and no other parameter exists.
   */
  function UpdateUrl(pathname: string, ps: Params, states: seq<string>, offices: seq<string>): (target: string)
    ensures target == pathname <==> states == [] && offices == [] && OtherPairs(ps, StateWfo) == []
  {
    Target(pathname, RenderQuery(UrlPairs(ps, states, offices)))
  }

  /** The target `updateURLWithTypes` hands to `router.replace`; bare exactly when there is nothing to write. */
  function UpdateUrlWithTypes(pathname: string, ps: Params, states: seq<string>, offices: seq<string>,
                              types: seq<string>): (target: string)
    ensures target == pathname <==> states == [] && offices == [] && types == [] && OtherPairs(ps, StateWfoType) == []
  {
    Target(pathname, RenderQuery(TypeUrlPairs(ps, states, offices, types)))
  }

  /** A selection that survives being written raw into a query and read back. */
  predicate PlainSelection(xs: seq<string>)
  {
    forall i :: 0 <= i < |xs| ==> ',' !in xs[i] && PlainValue(xs[i])
  }

  /**
   * What the menu reads back for a written selection: the selection itself,
   * except that the lone empty piece is written as an empty value, which
   * reads as no selection at all.
   */
  function Shown(xs: seq<string>): (r: seq<string>)
    ensures xs != [""] ==> r == xs
    ensures xs == [""] ==> r == []
  {
    if xs == [""] then [] else xs
  }

  predicate AllNoLower(xs: seq<string>)
  {
    forall i :: 0 <= i < |xs| ==> NoLower(xs[i])
  }

  /** A parameter holding a plain selection, joined, reads back as that selection. */
  lemma ReadJoined(ps: Params, key: string, xs: seq<string>, upper: bool)
    requires Get(ps, key) == Joined(xs)
    requires PlainSelection(xs)
    requires upper ==> AllNoLower(xs)
    ensures ReadSelection(ps, key, upper) == Some(Shown(xs))
  {
    if xs != [] && xs != [""] {
      var j := Join(xs, ',');
      assert j != "" by {
        if |xs| == 1 {
          assert j == xs[0];
        }
      }
      JoinKeeps(xs, ',', '%');
      DecodeNoPercent(j);
      SplitJoin(xs, ',');
      assert CasedAll(xs, upper) == xs by {
        forall i | 0 <= i < |xs|
          ensures Cased(xs[i], upper) == xs[i]
        {
          if upper {
            UpperFixed(xs[i]);
          }
        }
      }
    }
  }

  /** A value joined from plain pieces is plain. */
  lemma JoinPlain(xs: seq<string>)
    requires PlainSelection(xs)
    ensures PlainValue(Join(xs, ','))
  {
    JoinKeeps(xs, ',', '&');
    JoinKeeps(xs, ',', '%');
    JoinKeeps(xs, ',', '+');
    JoinKeeps(xs, ',', '#');
    JoinKeeps(xs, ',', '\t');
    JoinKeeps(xs, ',', '\n');
    JoinKeeps(xs, ',', '\r');
  }

  lemma OtherPairsPlain(ps: Params, names: set<string>)
    requires PlainParams(ps)
    ensures PlainParams(OtherPairs(ps, names))
  {
    FilterKeeps(ps, (p: Pair) => Lower(p.0) !in names, (p: Pair) => PlainKey(p.0) && PlainValue(p.1));
  }

  /** An entry built from a plain selection under a plain key is plain. */
  lemma EntryPlain(key: string, xs: seq<string>)
    requires PlainKey(key)
    requires PlainSelection(xs)
    ensures PlainParams(Entry(key, xs))
  {
    if xs != [] {
      JoinPlain(xs);
    }
  }

  lemma PlainAppend(a: Params, b: Params)
    requires PlainParams(a) && PlainParams(b)
    ensures PlainParams(a + b)
  {
    assert forall i :: |a| <= i < |a + b| ==> (a + b)[i] == b[i - |a|];
  }

  /** `get` of a key none of `names` covers sees through the filter. */
  lemma {:induction false} GetOtherPairs(ps: Params, names: set<string>, k: string)
    requires Lower(k) !in names
    ensures Get(OtherPairs(ps, names), k) == Get(ps, k)
    decreases |ps|
  {
    if ps != [] {
      GetOtherPairs(ps[1..], names, k);
      if Lower(ps[0].0) !in names {
        assert OtherPairs(ps, names) == [ps[0]] + OtherPairs(ps[1..], names);
        assert ([ps[0]] + OtherPairs(ps[1..], names))[1..] == OtherPairs(ps[1..], names);
      } else {
        assert ps[0].0 != k;
        assert OtherPairs(ps, names) == [] + OtherPairs(ps[1..], names);
        assert [] + OtherPairs(ps[1..], names) == OtherPairs(ps[1..], names);
      }
    }
  }

  /** Removing the pairs of `names` from pairs that start with entries of those names leaves the rest. */
  lemma OtherPairsAfterEntries(head: Params, rest: Params, names: set<string>)
    requires forall i :: 0 <= i < |head| ==> Lower(head[i].0) in names
    requires forall i :: 0 <= i < |rest| ==> Lower(rest[i].0) !in names
    ensures OtherPairs(head + rest, names) == rest
  {
    var p := (q: Pair) => Lower(q.0) !in names;
    FilterAppend(head, rest, p);
    assert Filter(head, p) == [] by {
      if Filter(head, p) != [] {
        assert p(Filter(head, p)[0]);
        FilterMembers(head, p, Filter(head, p)[0]);
      }
    }
  }

  /**
   * What `updateURL(states, offices)` writes reads back as those lists:
   * `state` holds the joined states and is absent when there are none,
   * `wfo` likewise; every other parameter keeps its value and the others
   * keep their order.
   */
  lemma UrlPairsRead(ps: Params, states: seq<string>, offices: seq<string>)
    requires PlainSelection(states) && AllNoLower(states)
    requires PlainSelection(offices) && AllNoLower(offices)
    ensures Get(UrlPairs(ps, states, offices), "state") == Joined(states)
    ensures Get(UrlPairs(ps, states, offices), "wfo") == Joined(offices)
    ensures ReadSelection(UrlPairs(ps, states, offices), "state", true) == Some(Shown(states))
    ensures ReadSelection(UrlPairs(ps, states, offices), "wfo", true) == Some(Shown(offices))
  {
    var r := UrlPairs(ps, states, offices);
    StateWfoGet(states, offices, OtherPairs(ps, StateWfo));
    ReadJoined(r, "state", states, true);
    ReadJoined(r, "wfo", offices, true);
  }

  /** Every parameter other than `state` and `wfo` keeps its value and its place among the others. */
  lemma UrlPairsOthers(ps: Params, states: seq<string>, offices: seq<string>)
    ensures OtherPairs(UrlPairs(ps, states, offices), StateWfo) == OtherPairs(ps, StateWfo)
    ensures forall k :: Lower(k) !in StateWfo ==> Get(UrlPairs(ps, states, offices), k) == Get(ps, k)
  {
    KeyNames();
    var others := OtherPairs(ps, StateWfo);
    var r := UrlPairs(ps, states, offices);
    StateWfoGet(states, offices, others);
    OtherPairsAfterEntries(Entry("state", states) + Entry("wfo", offices), others, StateWfo);
    forall k | Lower(k) !in StateWfo
      ensures Get(r, k) == Get(ps, k)
    {
      GetOtherPairs(ps, StateWfo, k);
    }
  }

  /** The query `updateURL` writes parses back to the pairs it was built from. */
  lemma UpdateUrlRoundTrip(pathname: string, ps: Params, states: seq<string>, offices: seq<string>)
    requires UrlPath(pathname) && PlainParams(ps)
    requires PlainSelection(states) && PlainSelection(offices)
    requires NoTrailingBlank(RenderQuery(UrlPairs(ps, states, offices)))
    ensures ParamsAfter(UpdateUrl(pathname, ps, states, offices)) == UrlPairs(ps, states, offices)
  {
    var pairs := UrlPairs(ps, states, offices);
    UrlPairsPlain(ps, states, offices);
    RenderQueryPlain(pairs);
    QueryOfTarget(pathname, RenderQuery(pairs));
    ParseRendered(pairs);
  }

  lemma UrlPairsPlain(ps: Params, states: seq<string>, offices: seq<string>)
    requires PlainParams(ps) && PlainSelection(states) && PlainSelection(offices)
    ensures PlainParams(UrlPairs(ps, states, offices))
  {
    EntryPlain("state", states);
    EntryPlain("wfo", offices);
    OtherPairsPlain(ps, StateWfo);
    PlainAppend(Entry("state", states), Entry("wfo", offices));
    PlainAppend(Entry("state", states) + Entry("wfo", offices), OtherPairs(ps, StateWfo));
  }

  /** Calling `updateURL` again with the same lists on the page it produced targets the same URL. */
  lemma UpdateUrlIdempotent(pathname: string, ps: Params, states: seq<string>, offices: seq<string>)
    requires UrlPath(pathname) && PlainParams(ps)
    requires PlainSelection(states) && PlainSelection(offices)
    requires NoTrailingBlank(RenderQuery(UrlPairs(ps, states, offices)))
    ensures UpdateUrl(pathname, ParamsAfter(UpdateUrl(pathname, ps, states, offices)), states, offices)
         == UpdateUrl(pathname, ps, states, offices)
  {
    UpdateUrlRoundTrip(pathname, ps, states, offices);
    UrlPairsOthers(ps, states, offices);
  }

  /** A type entry followed by pairs of other keys has no state or wfo key. */
  lemma TypeTailKeys(types: seq<string>, others: Params)
    requires forall i :: 0 <= i < |others| ==> Lower(others[i].0) !in StateWfoType
    ensures forall i :: 0 <= i < |Entry("type", types) + others| ==>
              Lower((Entry("type", types) + others)[i].0) !in StateWfo
  {
    KeyNames();
    var tail := Entry("type", types) + others;
    forall i | 0 <= i < |tail|
      ensures Lower(tail[i].0) !in StateWfo
    {
      if i >= |Entry("type", types)| {
        assert tail[i] == others[i - |Entry("type", types)|];
      }
    }
  }

  /** What `get` finds under state, wfo and type in a state entry, a wfo entry, a type entry and pairs of other keys. */
  lemma StateWfoTypeGet(states: seq<string>, offices: seq<string>, types: seq<string>, others: Params)
    requires forall i :: 0 <= i < |others| ==> Lower(others[i].0) !in StateWfoType
    ensures Get(Entry("state", states) + Entry("wfo", offices) + Entry("type", types) + others, "state") == Joined(states)
    ensures Get(Entry("state", states) + Entry("wfo", offices) + Entry("type", types) + others, "wfo") == Joined(offices)
    ensures Get(Entry("state", states) + Entry("wfo", offices) + Entry("type", types) + others, "type") == Joined(types)
  {
    KeyNames();
    var head := Entry("state", states) + Entry("wfo", offices);
    var tail := Entry("type", types) + others;
    Regroup3(head, Entry("type", types), others);
    TypeTailKeys(types, others);
    StateWfoGet(states, offices, tail);
    assert !HasName(others, "type") by {
      NoName(others, "type");
    }
    GetEntry("type", types, others);
  }

  /** `get` of any other key looks past the three entries. */
  lemma StateWfoTypeGetOthers(states: seq<string>, offices: seq<string>, types: seq<string>, others: Params)
    requires forall i :: 0 <= i < |others| ==> Lower(others[i].0) !in StateWfoType
    ensures forall k :: Lower(k) !in StateWfoType ==>
              Get(Entry("state", states) + Entry("wfo", offices) + Entry("type", types) + others, k) == Get(others, k)
  {
    KeyNames();
    var head := Entry("state", states) + Entry("wfo", offices);
    var tail := Entry("type", types) + others;
    Regroup3(head, Entry("type", types), others);
    TypeTailKeys(types, others);
    StateWfoGet(states, offices, tail);
    forall k | Lower(k) !in StateWfoType
      ensures Get(head + tail, k) == Get(others, k)
    {
      GetPastEntry("type", types, others, k);
    }
  }

  /**
   * What `updateURLWithTypes(types)` writes reads back as the current states
   * and offices and the new types; every parameter other than state, wfo and
   * type keeps its value, and those others keep their order.
   */
  lemma TypeUrlPairsRead(ps: Params, states: seq<string>, offices: seq<string>, types: seq<string>)
    requires PlainSelection(states) && AllNoLower(states)
    requires PlainSelection(offices) && AllNoLower(offices)
    requires PlainSelection(types)
    ensures Get(TypeUrlPairs(ps, states, offices, types), "type") == Joined(types)
    ensures ReadSelection(TypeUrlPairs(ps, states, offices, types), "state", true) == Some(Shown(states))
    ensures ReadSelection(TypeUrlPairs(ps, states, offices, types), "wfo", true) == Some(Shown(offices))
    ensures ReadSelection(TypeUrlPairs(ps, states, offices, types), "type", false) == Some(Shown(types))
  {
    var r := TypeUrlPairs(ps, states, offices, types);
    StateWfoTypeGet(states, offices, types, OtherPairs(ps, StateWfoType));
    ReadJoined(r, "state", states, true);
    ReadJoined(r, "wfo", offices, true);
    ReadJoined(r, "type", types, false);
  }

  /** Every parameter other than `state`, `wfo` and `type` keeps its value and its place among the others. */
  lemma TypeUrlPairsOthers(ps: Params, states: seq<string>, offices: seq<string>, types: seq<string>)
    ensures OtherPairs(TypeUrlPairs(ps, states, offices, types), StateWfoType) == OtherPairs(ps, StateWfoType)
    ensures forall k :: Lower(k) !in StateWfoType ==> Get(TypeUrlPairs(ps, states, offices, types), k) == Get(ps, k)
  {
    KeyNames();
    var others := OtherPairs(ps, StateWfoType);
    var r := TypeUrlPairs(ps, states, offices, types);
    StateWfoTypeGetOthers(states, offices, types, others);
    OtherPairsAfterEntries(Entry("state", states) + Entry("wfo", offices) + Entry("type", types), others, StateWfoType);
    forall k | Lower(k) !in StateWfoType
      ensures Get(r, k) == Get(ps, k)
    {
      GetOtherPairs(ps, StateWfoType, k);
    }
  }

  /** The query `updateURLWithTypes` writes parses back to the pairs it was built from. */
  lemma UpdateUrlWithTypesRoundTrip(pathname: string, ps: Params, states: seq<string>, offices: seq<string>,
                                    types: seq<string>)
    requires UrlPath(pathname) && PlainParams(ps)
    requires PlainSelection(states) && PlainSelection(offices) && PlainSelection(types)
    requires NoTrailingBlank(RenderQuery(TypeUrlPairs(ps, states, offices, types)))
    ensures ParamsAfter(UpdateUrlWithTypes(pathname, ps, states, offices, types)) == TypeUrlPairs(ps, states, offices, types)
  {
    var pairs := TypeUrlPairs(ps, states, offices, types);
    TypeUrlPairsPlain(ps, states, offices, types);
    RenderQueryPlain(pairs);
    QueryOfTarget(pathname, RenderQuery(pairs));
    ParseRendered(pairs);
  }

  lemma TypeUrlPairsPlain(ps: Params, states: seq<string>, offices: seq<string>, types: seq<string>)
    requires PlainParams(ps) && PlainSelection(states) && PlainSelection(offices) && PlainSelection(types)
    ensures PlainParams(TypeUrlPairs(ps, states, offices, types))
  {
    var head := Entry("state", states) + Entry("wfo", offices);
    EntryPlain("state", states);
    EntryPlain("wfo", offices);
    EntryPlain("type", types);
    OtherPairsPlain(ps, StateWfoType);
    PlainAppend(Entry("state", states), Entry("wfo", offices));
    PlainAppend(head, Entry("type", types));
    PlainAppend(head + Entry("type", types), OtherPairs(ps, StateWfoType));
  }
  // ---------------------------------------------------------------------------
  // Checkbox reducers
  // ---------------------------------------------------------------------------

  /**
   * A checkbox of a set-valued list: `new Set(sel)`, then `add(x)` when
   * checked or `delete(x)` when not, read back in insertion order: the
   * members of `sel` once each in the order of their first occurrences (see
   * `Lists.DistinctOrder`), then `x` if it is new; for a list without
   * repeats nothing moves.
   */
  function Toggle(sel: seq<string>, x: string, checked: bool): (r: seq<string>)
    ensures NoDup(r)
    ensures forall y :: y in r <==> if checked then y in sel || y == x else y in sel && y != x
    ensures checked ==> r == Distinct(sel) + (if x in sel then [] else [x])
    ensures !checked ==> r == Remove(Distinct(sel), x)
    ensures NoDup(sel) && checked ==> r == sel + (if x in sel then [] else [x])
    ensures NoDup(sel) && !checked ==> r == Remove(sel, x)
  {
    var r := if checked then Insert(Distinct(sel), x) else Remove(Distinct(sel), x);
    if NoDup(sel) then DistinctNoDup(sel); r else r
  }

  /**
   * `handleStateSelect`: checking adds the upper-cased code and removes
   * `CONT`; unchecking removes only that code; the other members keep the
   * order of their first occurrences.
   */
  function ToggleState(sel: seq<string>, code: string, checked: bool): (r: seq<string>)
    ensures NoDup(r)
    ensures checked ==> Cont !in r
    ensures checked ==> forall y :: y in r <==> (y in sel || y == Upper(code)) && y != Cont
    ensures !checked ==> forall y :: y in r <==> y in sel && y != Upper(code)
    ensures checked ==> r == Remove(Distinct(sel), Cont)
                             + (if Upper(code) in sel || Upper(code) == Cont then [] else [Upper(code)])
    ensures !checked ==> r == Remove(Distinct(sel), Upper(code))
    ensures !checked && NoDup(sel) ==> r == Remove(sel, Upper(code))
  {
    var u := Upper(code);
    if checked then
      RemoveInsert(Distinct(sel), u, Cont);
      Remove(Toggle(sel, u, true), Cont)
    else Toggle(sel, u, false)
  }

  /** The states the `CONT` ("Lower 48") checkbox writes. */
  function ContSelection(checked: bool): (r: seq<string>)
    ensures ContChecked(r) == checked
    ensures PlainSelection(r) && AllNoLower(r)
  {
    if checked then [Cont] else []
  }

  /** Whether the `CONT` checkbox shows as checked. */
  predicate ContChecked(sel: seq<string>)
  {
    |sel| == 1 && sel[0] == Cont
  }

  /** A selection of plain pieces keeps being plain when members are only removed, or added from a plain code. */
  lemma PlainMembers(xs: seq<string>, ys: seq<string>, extra: string)
    requires PlainSelection(xs)
    requires ',' !in extra && PlainValue(extra)
    requires forall y :: y in ys ==> y in xs || y == extra
    ensures PlainSelection(ys)
  {
    forall i | 0 <= i < |ys|
      ensures ',' !in ys[i] && PlainValue(ys[i])
    {
      assert ys[i] in ys;
      if ys[i] != extra {
        var j :| 0 <= j < |xs| && xs[j] == ys[i];
      }
    }
  }

  lemma NoLowerMembers(xs: seq<string>, ys: seq<string>, extra: string)
    requires AllNoLower(xs) && NoLower(extra)
    requires forall y :: y in ys ==> y in xs || y == extra
    ensures AllNoLower(ys)
  {
    forall i | 0 <= i < |ys|
      ensures NoLower(ys[i])
    {
      assert ys[i] in ys;
      if ys[i] != extra {
        var j :| 0 <= j < |xs| && xs[j] == ys[i];
      }
    }
  }

  /** Upper-casing keeps a code plain: it only changes letters. */
  lemma UpperPlain(code: string)
    requires ',' !in code && PlainValue(code)
    ensures ',' !in Upper(code) && PlainValue(Upper(code)) && NoLower(Upper(code))
  {
    UpperKeeps(code, ',');
    UpperKeeps(code, '&');
    UpperKeeps(code, '%');
    UpperKeeps(code, '+');
    UpperKeeps(code, '#');
    UpperKeeps(code, '\t');
    UpperKeeps(code, '\n');
    UpperKeeps(code, '\r');
  }

  /** The conditions under which the round-trip lemmas about the menu hold. */
  predicate PlainCode(code: string)
  {
    ',' !in code && PlainValue(code)
  }

  /**
   * After a state checkbox and the navigation it triggers, the menu reads the
   * toggled state list, the same offices and every other parameter as before.
   */
  lemma StateSelectRoundTrip(pathname: string, ps: Params, states: seq<string>, offices: seq<string>,
                             code: string, checked: bool)
    requires UrlPath(pathname) && PlainParams(ps)
    requires PlainSelection(states) && AllNoLower(states)
    requires PlainSelection(offices) && AllNoLower(offices)
    requires PlainCode(code)
    requires NoTrailingBlank(RenderQuery(UrlPairs(ps, ToggleState(states, code, checked), offices)))
    ensures ReadSelection(ParamsAfter(UpdateUrl(pathname, ps, ToggleState(states, code, checked), offices)), "state", true)
         == Some(Shown(ToggleState(states, code, checked)))
    ensures ReadSelection(ParamsAfter(UpdateUrl(pathname, ps, ToggleState(states, code, checked), offices)), "wfo", true)
         == Some(Shown(offices))
    ensures forall k :: Lower(k) !in StateWfo ==>
              Get(ParamsAfter(UpdateUrl(pathname, ps, ToggleState(states, code, checked), offices)), k) == Get(ps, k)
  {
    var next := ToggleState(states, code, checked);
    UpperPlain(code);
    PlainMembers(states, next, Upper(code));
    NoLowerMembers(states, next, Upper(code));
    UpdateUrlRoundTrip(pathname, ps, next, offices);
    UrlPairsRead(ps, next, offices);
    UrlPairsOthers(ps, next, offices);
  }

  /**
   * After an office checkbox and the navigation it triggers, the menu reads
   * the toggled office list, the same states and every other parameter as before.
   */
  lemma OfficeSelectRoundTrip(pathname: string, ps: Params, states: seq<string>, offices: seq<string>,
                              code: string, checked: bool)
    requires UrlPath(pathname) && PlainParams(ps)
    requires PlainSelection(states) && AllNoLower(states)
    requires PlainSelection(offices) && AllNoLower(offices)
    requires PlainCode(code)
    requires NoTrailingBlank(RenderQuery(UrlPairs(ps, states, Toggle(offices, Upper(code), checked))))
    ensures ReadSelection(ParamsAfter(UpdateUrl(pathname, ps, states, Toggle(offices, Upper(code), checked))), "wfo", true)
         == Some(Shown(Toggle(offices, Upper(code), checked)))
    ensures ReadSelection(ParamsAfter(UpdateUrl(pathname, ps, states, Toggle(offices, Upper(code), checked))), "state", true)
         == Some(Shown(states))
    ensures forall k :: Lower(k) !in StateWfo ==>
              Get(ParamsAfter(UpdateUrl(pathname, ps, states, Toggle(offices, Upper(code), checked))), k) == Get(ps, k)
  {
    var next := Toggle(offices, Upper(code), checked);
    UpperPlain(code);
    PlainMembers(offices, next, Upper(code));
    NoLowerMembers(offices, next, Upper(code));
    UpdateUrlRoundTrip(pathname, ps, states, next);
    UrlPairsRead(ps, states, next);
    UrlPairsOthers(ps, states, next);
  }

  /**
   * After a type checkbox and the navigation it triggers, the menu reads the
   * toggled type list (its keys not upper-cased), the same states and
   * offices, and every other parameter as before.
   */
  lemma TypeSelectRoundTrip(pathname: string, ps: Params, states: seq<string>, offices: seq<string>,
                            types: seq<string>, key: string, checked: bool)
    requires UrlPath(pathname) && PlainParams(ps)
    requires PlainSelection(states) && AllNoLower(states)
    requires PlainSelection(offices) && AllNoLower(offices)
    requires PlainSelection(types) && PlainCode(key)
    requires NoTrailingBlank(RenderQuery(TypeUrlPairs(ps, states, offices, Toggle(types, key, checked))))
    ensures var after := ParamsAfter(UpdateUrlWithTypes(pathname, ps, states, offices, Toggle(types, key, checked)));
            && ReadSelection(after, "type", false) == Some(Shown(Toggle(types, key, checked)))
            && ReadSelection(after, "state", true) == Some(Shown(states))
            && ReadSelection(after, "wfo", true) == Some(Shown(offices))
            && forall k :: Lower(k) !in StateWfoType ==> Get(after, k) == Get(ps, k)
  {
    var next := Toggle(types, key, checked);
    PlainMembers(types, next, key);
    UpdateUrlWithTypesRoundTrip(pathname, ps, states, offices, next);
    TypeUrlPairsRead(ps, states, offices, next);
    TypeUrlPairsOthers(ps, states, offices, next);
  }

  /**
   * The `CONT` checkbox writes exactly `["CONT"]` or nothing as the states,
   * keeps the offices, and afterwards shows as checked exactly when it was checked.
   */
  lemma ContRoundTrip(pathname: string, ps: Params, offices: seq<string>, checked: bool)
    requires UrlPath(pathname) && PlainParams(ps)
    requires PlainSelection(offices) && AllNoLower(offices)
    requires NoTrailingBlank(RenderQuery(UrlPairs(ps, ContSelection(checked), offices)))
    ensures var after := ParamsAfter(UpdateUrl(pathname, ps, ContSelection(checked), offices));
            && ReadSelection(after, "state", true) == Some(ContSelection(checked))
            && ContChecked(ReadSelection(after, "state", true).value) == checked
            && ReadSelection(after, "wfo", true) == Some(Shown(offices))
  {
    var sel := ContSelection(checked);
    UpdateUrlRoundTrip(pathname, ps, sel, offices);
    UrlPairsRead(ps, sel, offices);
  }

  // ---------------------------------------------------------------------------
  // Labels, search and counts
  // ---------------------------------------------------------------------------

  /** `findIndex`: the index of the first element `p` holds of; `|xs|` when there is none. */
  function FindFirst<T>(xs: seq<T>, p: T -> bool): (i: nat)
    ensures i <= |xs|
    ensures i < |xs| ==> p(xs[i])
    ensures forall j :: 0 <= j < i ==> !p(xs[j])
    decreases |xs|
  {
    if xs == [] then 0
    else if p(xs[0]) then 0
    else 1 + FindFirst(xs[1..], p)
  }

  /** The state label: all, Lower 48, the first matching state's name, or a count. */
  function StatesLabel(sel: seq<string>, states: seq<Listing>): (r: string)
    ensures |sel| == 0 ==> r == "All States/Territories"
    ensures sel == [Cont] ==> r == "Lower 48 States"
    ensures |sel| == 1 && sel[0] != Cont ==>
              forall i :: (0 <= i < |states| && Upper(states[i].code) == sel[0]
                           && forall j :: 0 <= j < i ==> Upper(states[j].code) != sel[0]) ==> r == states[i].name
    ensures (|sel| == 1 && sel[0] != Cont && forall i :: 0 <= i < |states| ==> Upper(states[i].code) != sel[0]) ==>
              r == "All States/Territories"
    ensures |sel| > 1 ==> r == NatToString(|sel|) + " states/territories selected"
  {
    if |sel| == 0 then "All States/Territories"
    else if |sel| == 1 then
      if sel[0] == Cont then "Lower 48 States"
      else
        var i := FindFirst(states, (l: Listing) => Upper(l.code) == sel[0]);
        if i < |states| then states[i].name else "All States/Territories"
    else NatToString(|sel|) + " states/territories selected"
  }

  /**
   * The office label: all, the name the office table gives the upper-cased
   * code (all offices when it gives none or an empty one), or a count.
   */
  function OfficesLabel(sel: seq<string>, offices: seq<Listing>): (r: string)
    ensures |sel| == 0 ==> r == "All Offices"
    ensures |sel| == 1 ==>
              forall i :: (0 <= i < |offices| && offices[i].code == Upper(sel[0])
                           && forall j :: 0 <= j < i ==> offices[j].code != Upper(sel[0])) ==>
                r == if offices[i].name != "" then offices[i].name else "All Offices"
    ensures |sel| == 1 && (forall i :: 0 <= i < |offices| ==> offices[i].code != Upper(sel[0])) ==> r == "All Offices"
    ensures |sel| > 1 ==> r == NatToString(|sel|) + " offices selected"
  {
    if |sel| == 0 then "All Offices"
    else if |sel| == 1 then
      var i := FindFirst(offices, (l: Listing) => l.code == Upper(sel[0]));
      if i < |offices| && offices[i].name != "" then offices[i].name else "All Offices"
    else NatToString(|sel|) + " offices selected"
  }

  /** `\b\w`: a word character not preceded by one. */
  predicate WordStart(s: string, i: int)
    requires 0 <= i < |s|
  {
    IsWordChar(s[i]) && (i == 0 || !IsWordChar(s[i - 1]))
  }

  /**
   * `title.toLowerCase().replace(/\b\w/g, c => c.toUpperCase())`: the same
   * letters ignoring case, each word starting upper-case and lower-case elsewhere.
   */
  function DisplayLabel(title: string): (r: string)
    ensures |r| == |title|
    ensures forall i :: 0 <= i < |r| ==> LowerChar(r[i]) == LowerChar(title[i])
    ensures forall i :: 0 <= i < |r| ==> IsWordChar(r[i]) == IsWordChar(title[i])
    ensures forall i :: 0 <= i < |r| && WordStart(title, i) ==> !IsAsciiLower(r[i])
    ensures forall i :: 0 <= i < |r| && !WordStart(title, i) ==> !IsAsciiUpper(r[i])
  {
    seq(|title|, i requires 0 <= i < |title| =>
      if WordStart(title, i) then UpperChar(LowerChar(title[i])) else LowerChar(title[i]))
  }

  /** The type label: all, the display form of the first matching type's label, or a count. */
  function TypesLabel(sel: seq<string>, types: seq<AlertType>): (r: string)
    ensures |sel| == 0 ==> r == "All Types"
    ensures |sel| == 1 ==>
              forall i :: (0 <= i < |types| && types[i].key == sel[0]
                           && forall j :: 0 <= j < i ==> types[j].key != sel[0]) ==> r == DisplayLabel(types[i].title)
    ensures |sel| == 1 && (forall i :: 0 <= i < |types| ==> types[i].key != sel[0]) ==> r == "All Types"
    ensures |sel| > 1 ==> r == NatToString(|sel|) + " types selected"
  {
    if |sel| == 0 then "All Types"
    else if |sel| == 1 then
      var i := FindFirst(types, (t: AlertType) => t.key == sel[0]);
      if i < |types| then DisplayLabel(types[i].title) else "All Types"
    else NatToString(|sel|) + " types selected"
  }

  /** The name or the code, lower-cased, includes the lower-cased query. */
  predicate Matches(item: Listing, query: string)
  {
    Contains(Lower(item.name), Lower(query)) || Contains(Lower(item.code), Lower(query))
  }

  /** `filteredStates` and `filteredOffices`: everything for a blank query, the matching listings otherwise. */
  function SearchFilter(items: seq<Listing>, query: string): (r: seq<Listing>)
    ensures Trim(query) == "" ==> r == items
    ensures Trim(query) != "" ==> forall i :: 0 <= i < |r| ==> Matches(r[i], query)
    ensures |r| <= |items|
  {
    if Trim(query) == "" then items else Filter(items, x => Matches(x, query))
  }

  /** A listing is shown for a non-blank query exactly when it matches. */
  lemma SearchFilterMembers(items: seq<Listing>, query: string, x: Listing)
    requires Trim(query) != ""
    ensures x in SearchFilter(items, query) <==> x in items && Matches(x, query)
  {
    FilterMembers(items, y => Matches(y, query), x);
  }

  /** The filter keeps the listings' order: filtering a concatenation filters each part. */
  lemma SearchFilterAppend(a: seq<Listing>, b: seq<Listing>, query: string)
    ensures SearchFilter(a + b, query) == SearchFilter(a, query) + SearchFilter(b, query)
  {
    if Trim(query) != "" {
      FilterAppend(a, b, x => Matches(x, query));
    }
  }

  /** The office listings: the office table without its `All` entry. */
  function OfficeListings(table: seq<Listing>): (r: seq<Listing>)
    ensures forall i :: 0 <= i < |r| ==> r[i].code != "All"
    ensures forall x :: x in r <==> x in table && x.code != "All"
  {
    var r := Filter(table, (x: Listing) => x.code != "All");
    forall x ensures x in r <==> x in table && x.code != "All" {
      FilterMembers(table, (y: Listing) => y.code != "All", x);
    }
    r
  }

  /** `alertTypeCounts[key] || 0`. */
  function CountOf(counts: map<string, int>, key: string): int
  {
    if key in counts then counts[key] else 0
  }

  function SumCounts(types: seq<AlertType>, counts: map<string, int>): (n: int)
    ensures (forall k :: k in counts ==> counts[k] >= 0) ==> n >= 0
  {
    if types == [] then 0 else CountOf(counts, types[0].key) + SumCounts(types[1..], counts)
  }

  /** Every type but `TOR_EMERGENCY` counts towards the badge. */
  predicate Counted(t: AlertType)
  {
    t.key != TorEmergency
  }

  /** The "All Alerts" badge: the counts of every type except `TOR_EMERGENCY`, a missing count being 0. */
  function AllAlertsCount(types: seq<AlertType>, counts: map<string, int>): (n: int)
    ensures (forall k :: k in counts ==> counts[k] >= 0) ==> n >= 0
  {
    SumCounts(Filter(types, Counted), counts)
  }

  lemma {:induction false} SumCountsAppend(a: seq<AlertType>, b: seq<AlertType>, counts: map<string, int>)
    ensures SumCounts(a + b, counts) == SumCounts(a, counts) + SumCounts(b, counts)
    decreases |a|
  {
    if a == [] {
      assert a + b == b;
    } else {
      SumCountsAppend(a[1..], b, counts);
      assert (a + b)[1..] == a[1..] + b;
    }
  }

  /** The total is the sum over the types, each counted once per appearance in the list. */
  lemma AllAlertsCountAppend(a: seq<AlertType>, b: seq<AlertType>, counts: map<string, int>)
    ensures AllAlertsCount(a + b, counts) == AllAlertsCount(a, counts) + AllAlertsCount(b, counts)
    ensures AllAlertsCount([], counts) == 0
  {
    FilterAppend(a, b, Counted);
    SumCountsAppend(Filter(a, Counted), Filter(b, Counted), counts);
  }

  /** One type contributes its count, or 0 when it is `TOR_EMERGENCY` or has no count. */
  lemma AllAlertsCountSingle(t: AlertType, counts: map<string, int>)
    ensures AllAlertsCount([t], counts) == if t.key == TorEmergency || t.key !in counts then 0 else counts[t.key]
  {
    assert [t][1..] == [];
    var kept := Filter([t], Counted);
    if Counted(t) {
      assert kept == [t] + [];
      assert SumCounts(kept, counts) == CountOf(counts, t.key) + SumCounts([], counts);
    } else {
      assert kept == [];
    }
  }

  lemma {:induction false} SumCountsWithoutTor(types: seq<AlertType>, counts: map<string, int>, c: int)
    requires forall i :: 0 <= i < |types| ==> types[i].key != TorEmergency
    ensures SumCounts(types, counts[TorEmergency := c]) == SumCounts(types, counts)
    decreases |types|
  {
    if types != [] {
      SumCountsWithoutTor(types[1..], counts, c);
    }
  }

  /** The count of `TOR_EMERGENCY` never changes the total. */
  lemma AllAlertsCountIgnoresTor(types: seq<AlertType>, counts: map<string, int>, c: int)
    ensures AllAlertsCount(types, counts[TorEmergency := c]) == AllAlertsCount(types, counts)
  {
    SumCountsWithoutTor(Filter(types, Counted), counts, c);
  }
}
