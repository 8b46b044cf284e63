# Filter menu and settings dialog: query-string state

This project models how the weather-alert overlay keeps its filters in the page
address, and proves properties of that model. Two parts are covered:

- The filter menu (`AppMenu.js`). It reads the `state`, `wfo` (forecast office) and
  `type` selections from the query string. Its checkbox handlers rewrite the query and
  hand the new target to the router. It labels the current selection, filters the
  state and office lists by a search text, and totals the alert counts. It also
  builds the shareable link, using `formatQueryParams`, which merges repeated
  `state`/`wfo` parameters.
- The settings dialog (`Settings.tsx`). It sanitises the zone list the user types
  (`sanitizeZoneInput`), writes `zone` and `colors` back into the query with `%2C`
  turned back into `,`, and keeps the staged alert colours that the dialog edits.

The query string is modelled on the WHATWG URL Standard:

- `application/x-www-form-urlencoded` serialization (section 5.2);
- the basic URL parser's treatment of the query (section 4.4): leading and trailing
  C0 controls and spaces are stripped, tabs and newlines removed, and the query ends at `#`;
- the `application/x-www-form-urlencoded` parser (section 5.1), whose percent-decoding
  is modelled for ASCII escapes only;
- the `URLSearchParams` operations `get`, `set`, `delete` and `append` (section 6.2).

`decodeURIComponent` follows ECMA-262, and a decoding error (a thrown `URIError`) is
the value `None`. Strings are sequences of `char`. Case mapping is ASCII only.

Modules, one per file:

| file | module | contents |
|---|---|---|
| `wrappers.dfy` | `Wrappers` | `Option` |
| `text.dfy` | `Text` | JavaScript string operations: `toUpperCase`/`toLowerCase` (ASCII), `replace(/\s+/g, "")`, `trim`, `split`, `join`, the decimal rendering of a count |
| `lists.dfy` | `Lists` | `Array.prototype.filter`, and a `Set` of strings read back in insertion order |
| `url_encoding.dfy` | `UrlEncoding` | the form-urlencoded serializer and parser, the `%2C` rewrite, `decodeURIComponent`, and the target handed to the router |
| `search_params.dfy` | `SearchParams` | `URLSearchParams` as a list of pairs, with the class `SearchParamList` for the object the code mutates |
| `menu_query.dfy` | `MenuQuery` | the pure logic of the filter menu |
| `app_menu.dfy` | `AppMenu` | the `Set` the handlers fill, `formatQueryParams` as the loop it is, and the class `Menu` whose handlers record router targets |
| `settings.dfy` | `Settings` | the zone sanitiser, parameter writing, the colour logic, and the class `SettingsDialog` |

The router is modelled as a log: each `router.replace(target)` appends `target`
to the `replaced` field of the menu or the dialog. `ParamsAfter(target)` is the
parameter list the next render reads from that target.

## Model

| member | source | states |
|---|---|---|
| Text.Upper | AppMenu.js:81 | `toUpperCase` keeps the length, maps each character by ASCII upper-casing, and leaves no lower-case letter |
| Text.Lower | AppMenu.js:109 | `toLowerCase` keeps the length, maps each character by ASCII lower-casing, and leaves no upper-case letter |
| Text.UpperFixed | AppMenu.js:81 | upper-casing text with no lower-case letter changes nothing |
| Text.LowerFixed | AppMenu.js:109 | lower-casing text with no upper-case letter changes nothing |
| Text.UpperAppend | AppMenu.js:81 | upper-casing distributes over concatenation |
| Text.StripSpaces | Settings.tsx:71 | `replace(/\s+/g, "")` leaves no whitespace character |
| Text.StripSpacesFixed | Settings.tsx:133 | removing whitespace from text without any changes nothing |
| Text.StripSpacesAppend | Settings.tsx:71 | removing whitespace distributes over concatenation |
| Text.Trim | Settings.tsx:75 | `trim` leaves no whitespace at either end |
| Text.TrimEnd | Settings.tsx:75 | trimming the end gives a prefix of the text with no whitespace last, and keeps a non-space first character |
| Text.TrimStartDropsSpaces | Settings.tsx:75 | trimming the start gives a suffix of the text, and every character it drops is whitespace |
| Text.TrimEndDropsSpaces | Settings.tsx:75 | every character trimming the end drops is whitespace |
| Text.TrimEmpty | AppMenu.js:150-155 | the trimmed text is empty exactly when every character is whitespace |
| Text.TrimFixed | Settings.tsx:75 | text with no whitespace at either end is its own trim |
| Text.Split | AppMenu.js:80 | `split` returns at least one piece, and no piece contains the separator |
| Text.Join | AppMenu.js:119 | `join` of no pieces is empty, of one piece is that piece, and otherwise puts the separator right after the first piece |
| Text.JoinSplit | AppMenu.js:80 | joining the pieces of a split gives back the text |
| Text.SplitJoin | Settings.tsx:77 | splitting a join of pieces free of the separator gives back the pieces |
| Text.SplitSingle | Settings.tsx:74 | text without the separator splits into itself alone |
| Text.SplitAppend | Settings.tsx:74 | splitting `x + sep + y` splits `x`, then `y` |
| Text.SplitKeeps | AppMenu.js:80 | a character absent from the text is absent from every piece |
| Text.JoinKeeps | AppMenu.js:119 | a character absent from every piece, and not the separator, is absent from the join |
| Text.JoinNoSpace | Settings.tsx:77 | joining space-free pieces with a non-space separator gives space-free text |
| Text.NatToString | AppMenu.js:147 | the decimal rendering of a count is non-empty, made only of digits, has no leading zero, and its digits read back as the count |
| Text.ContainsSpec | AppMenu.js:151-154 | `includes` holds exactly when the needle occurs at some position of the text |
| Lists.Filter | AppMenu.js:44 | `filter` keeps only elements that pass, never lengthens, and returns the list itself when all pass |
| Lists.FilterAppend | AppMenu.js:44 | filtering a concatenation filters each part, in order |
| Lists.FilterMembers | AppMenu.js:44 | an element is kept exactly when it is present and passes |
| Lists.FilterNoDup | AppMenu.js:44 | filtering a list without repeats gives a list without repeats |
| Lists.Insert | AppMenu.js:128 | `Set.add` leaves exactly the old members plus the new one, and keeps them free of repeats |
| Lists.Remove | AppMenu.js:131 | `Set.delete` leaves exactly the old members other than the removed one, and removes nothing else |
| Lists.Distinct | AppMenu.js:126 | `new Set(xs)` holds exactly the members of `xs`, each once |
| Lists.FirstIndex | AppMenu.js:126 | the first position of a member holds it and no earlier position does |
| Lists.DistinctOrder | AppMenu.js:126 | `new Set(xs)` lists its members in the order of their first occurrence in `xs` |
| Lists.DistinctNoDup | AppMenu.js:126 | a list without repeats is already its own set, in the same order |
| Lists.RemoveInsert | AppMenu.js:128-129 | `add(x)` then `delete(y)` keeps the old members in order and puts `x` last unless it was present or deleted |
| UrlEncoding.HexChar | AppMenu.js:67 | the hex digit written for a value reads back as that value |
| UrlEncoding.Utf8 | AppMenu.js:67 | a character's UTF-8 encoding has one to four bytes, and an ASCII character is its own single byte |
| UrlEncoding.EncodeChar | AppMenu.js:67 | the form encoding of one character uses only `%`, `+`, hex digits and characters left as they are |
| UrlEncoding.FormEncode | AppMenu.js:67 | the form encoding of text is empty exactly when the text is |
| UrlEncoding.FormEncodeAlphabet | AppMenu.js:67 | the form encoding of text uses only `%`, `+`, hex digits and characters left as they are |
| UrlEncoding.FormSerialize | AppMenu.js:67 | `URLSearchParams.toString()` is empty exactly when there are no pairs |
| UrlEncoding.FormSerializeCons | AppMenu.js:67 | the serialization is the first pair's encoded key, `=`, its encoded value, then `&` and the rest |
| UrlEncoding.CommaEncode | Settings.tsx:89 | after the `%2C` rewrite an encoded value still holds no `&` or `=` |
| UrlEncoding.CommaEncodeKept | Settings.tsx:89-90 | nor does it hold `#`, a control character or a space, so the URL parser keeps it as it is |
| UrlEncoding.CommaSerialize | Settings.tsx:89 | the serialization with literal commas is empty exactly when there are no pairs |
| UrlEncoding.UnescapeCommas | Settings.tsx:89 | `replace(/%2C/g, ",")` never lengthens the text and empties only the empty text |
| UrlEncoding.UnescapeEncoded | Settings.tsx:89 | rewriting `%2C` in an encoded value gives the encoding in which only commas are literal |
| UrlEncoding.UnescapeSerialized | Settings.tsx:89 | `toString().replace(/%2C/g, ",")` is exactly the serialization with literal commas |
| UrlEncoding.DecodeURIComponent | AppMenu.js:79 | `decodeURIComponent` never lengthens the text it decodes |
| UrlEncoding.DecodeNoPercent | AppMenu.js:79 | `decodeURIComponent` of text without `%` is that text |
| UrlEncoding.DecodeEncoded | AppMenu.js:67 | decoding the form encoding of ASCII text gives the text with spaces as `+` |
| UrlEncoding.DecodeSerialized | AppMenu.js:67 | decoding the serialization of ASCII pairs gives `key=value` pairs joined by `&`, spaces shown as `+` |
| UrlEncoding.RenderQuery | AppMenu.js:115-119 | the unencoded `key=value&...` text is empty exactly when there are no pairs |
| UrlEncoding.Target | AppMenu.js:121 | the router target is the bare pathname for an empty query, and otherwise has `?` right after the pathname |
| UrlEncoding.QueryOf | AppMenu.js:121 | the query the URL parser reads from a target holds no `#`, tab or newline |
| UrlEncoding.QueryOfTargetStripped | AppMenu.js:121 | for a pathname without blanks, `?` or `#`, the query read is the query written, with trailing controls and spaces and every tab and newline removed, cut at the first `#` |
| UrlEncoding.QueryOfTarget | AppMenu.js:121 | for such a pathname, a query without `#`, tab or newline that does not end in a control or space is read back exactly as written |
| UrlEncoding.TrailingBlankLost | AppMenu.js:121 | a control or space at the end of the written query is lost |
| UrlEncoding.TabOrNewlineLost | AppMenu.js:121 | a tab or newline inside the written query is lost |
| UrlEncoding.FormDecode | AppMenu.js:73 | form-decoding never lengthens the text |
| UrlEncoding.ParseQuery | AppMenu.js:73 | the parser yields at most one pair per `&`-separated piece, and none for an empty query |
| UrlEncoding.FormDecodePlain | AppMenu.js:107 | form-decoding text without `%` or `+` changes nothing |
| UrlEncoding.SplitAtEqualsPair | AppMenu.js:107 | a sequence `key=value` whose key has no `=` parses to that key and value |
| UrlEncoding.ParseRendered | AppMenu.js:107 | the WHATWG parser reads unencoded `key=value` text back as the pairs written, when keys and values hold no `&`, `%`, `+`, `#`, tab or newline (and keys no `=`) |
| UrlEncoding.RenderQueryPlain | AppMenu.js:115-119 | unencoded `key=value` text of such pairs holds no `#`, tab or newline |
| UrlEncoding.FormDecodeCommaEncodedAll | Settings.tsx:89 | form-decoding a value encoded with literal commas gives back the ASCII value |
| UrlEncoding.ParseCommaSerialized | Settings.tsx:89 | the parser reads the serialization with literal commas back as the pairs, for ASCII pairs |
| SearchParams.Get | AppMenu.js:77 | `get` is absent exactly when no pair has the name, and a found value belongs to a pair with that name |
| SearchParams.DeleteAll | Settings.tsx:87 | `delete` leaves no pair with the name, never lengthens, and changes nothing when the name is absent |
| SearchParams.GetAppend | AppMenu.js:77 | `get` looks past a prefix holding no pair with the name |
| SearchParams.DeleteAllAppend | Settings.tsx:87 | `delete` works on each part of a concatenation |
| SearchParams.SetValue | Settings.tsx:85 | after `set` the list holds the new pair and has grown by at most one |
| SearchParams.SetFirstShape | Settings.tsx:85 | replacing the first pair keeps the pairs before it, puts the new pair in its place, and drops later pairs with the name |
| SearchParams.SetFirstSkip | Settings.tsx:85 | pairs before the first pair of the name are kept as they are by `set` |
| SearchParams.SetValueShape | Settings.tsx:85 | `set` appends the pair when the name is absent, and otherwise replaces the first pair with the name and drops the others |
| SearchParams.SetValueLength | Settings.tsx:85 | after `set` the list is one longer than the list with the name deleted |
| SearchParams.SetFirstSpec | Settings.tsx:85 | replacing the first pair gives `get` the new value, and agrees with the old list once the name is deleted |
| SearchParams.GetIgnoresDeleted | Settings.tsx:87 | deleting one name does not change `get` of another |
| SearchParams.SetValueSpec | Settings.tsx:85 | after `set`, `get` of the name is the new value, `get` of every other name is unchanged, and deleting the name gives the same list as before |
| SearchParams.DeleteAllSpec | Settings.tsx:87 | after `delete`, `get` of the name is absent and `get` of every other name is unchanged |
| SearchParams.DeleteAllPairs | Settings.tsx:87 | `delete` introduces no pair |
| SearchParams.SetValuePairs | Settings.tsx:85 | `set` introduces no pair other than the new one |
| SearchParams.SearchParamList.Set | AppMenu.js:46 | `params.set(name, value)` replaces the list by its `set` |
| SearchParams.SearchParamList.Delete | Settings.tsx:87 | `params.delete(name)` replaces the list by its `delete` |
| SearchParams.SearchParamList.Append | AppMenu.js:65 | `params.append(name, value)` adds the pair last |
| MenuQuery.CasedAll | AppMenu.js:81 | upper-casing each piece keeps the count and maps each piece |
| MenuQuery.JoinCased | AppMenu.js:80-81 | upper-casing each piece of a list and joining equals joining then upper-casing |
| MenuQuery.ReadSelection | AppMenu.js:77-102 | a selection fails exactly when the value is present, non-empty and undecodable; it is empty when the value is missing or empty; otherwise its pieces joined are the decoded value (upper-cased for states and offices) and hold no comma |
| MenuQuery.ValuePieces | AppMenu.js:42-44 | the pieces of one value fail exactly when it does not decode, and are otherwise non-empty and comma-free |
| MenuQuery.Pieces | AppMenu.js:39-44 | the gathered pieces are non-empty and comma-free, and are none when no key matches |
| MenuQuery.PiecesFail | AppMenu.js:39-44 | gathering fails exactly when some matching key has an undecodable value |
| MenuQuery.PiecesAppend | AppMenu.js:43 | the pieces of a concatenation are the pieces of each part, in order |
| MenuQuery.CombineAssoc | AppMenu.js:43 | combining piece lists is associative |
| MenuQuery.OtherPairs | AppMenu.js:63-64 | the other pairs have no `state`/`wfo` key, ignoring case, and are the list itself when none does |
| MenuQuery.OtherPairsAppend | AppMenu.js:63-64 | the other pairs of a concatenation are those of each part |
| MenuQuery.FormatPairs | AppMenu.js:32-65 | formatting fails exactly when the state or wfo pieces fail, and adds at most two pairs |
| MenuQuery.FormatPairsSpec | AppMenu.js:32-65 | formatting fails exactly when the state or wfo pieces fail; otherwise `state` comes first, `wfo` just before the other pairs, both hold the joined pieces, and the other pairs follow in order |
| MenuQuery.FormatPairsIdempotent | AppMenu.js:32-65 | formatting already formatted parameters changes nothing |
| MenuQuery.FormatPairsAscii | AppMenu.js:32-65 | formatting ASCII parameters without escapes succeeds and stays ASCII |
| MenuQuery.FormattedStatePieces | AppMenu.js:39-47 | the formatted list gathers back exactly the state pieces it was built from |
| MenuQuery.FormattedWfoPieces | AppMenu.js:51-59 | the formatted list gathers back exactly the office pieces it was built from |
| MenuQuery.FormattedOthers | AppMenu.js:63-65 | the formatted list keeps exactly the other pairs |
| MenuQuery.FormatLink | AppMenu.js:67 | the link fails when gathering the pieces fails |
| MenuQuery.ShareLink | AppMenu.js:469 | the link is the origin plus pathname when there are no parameters, and always starts with them |
| MenuQuery.ShareLinkPlain | AppMenu.js:480 | for ASCII parameters without escapes, the link is origin, pathname, `?` and the formatted pairs written `key=value` with spaces as `+` |
| MenuQuery.UrlPairs | AppMenu.js:107-119 | `updateURL` writes no pairs exactly when there are no states, offices or other parameters, and at most two more pairs than it read |
| MenuQuery.TypeUrlPairs | AppMenu.js:232-248 | `updateURLWithTypes` writes no pairs exactly when there are no states, offices, types or other parameters, and at most three more than it read |
| MenuQuery.UpdateUrl | AppMenu.js:106-122 | the target is the bare pathname exactly when there are no states, no offices and no other parameters |
| MenuQuery.UpdateUrlWithTypes | AppMenu.js:231-251 | the target is the bare pathname exactly when there are no states, offices, types or other parameters |
| MenuQuery.StateWfoGet | AppMenu.js:112-118 | in the written pairs `state` reads the joined states, `wfo` the joined offices, and every other key reads as before |
| MenuQuery.StateWfoTypeGet | AppMenu.js:241-248 | in the written pairs `state`, `wfo` and `type` read their joined lists |
| MenuQuery.StateWfoTypeGetOthers | AppMenu.js:233-248 | in the written pairs every key other than state, wfo and type reads as before |
| MenuQuery.ReadJoined | AppMenu.js:77-82 | a value written as joined plain pieces reads back as those pieces, a single empty piece reading as no selection |
| MenuQuery.UrlPairsRead | AppMenu.js:106-122 | what `updateURL` writes reads back as the given states and offices (a single empty piece as none) |
| MenuQuery.UrlPairsOthers | AppMenu.js:107-110 | `updateURL` keeps every other parameter's value and the others' order |
| MenuQuery.UpdateUrlRoundTrip | AppMenu.js:106-122 | the query `updateURL` writes parses back to the pairs it was built from |
| MenuQuery.UpdateUrlIdempotent | AppMenu.js:106-122 | calling `updateURL` again with the same lists on the page it produced targets the same URL |
| MenuQuery.TypeUrlPairsRead | AppMenu.js:231-251 | what `updateURLWithTypes` writes reads back as the current states and offices and the new types (a single empty piece as none) |
| MenuQuery.TypeUrlPairsOthers | AppMenu.js:232-240 | `updateURLWithTypes` keeps every other parameter's value and the others' order |
| MenuQuery.UpdateUrlWithTypesRoundTrip | AppMenu.js:231-251 | the query `updateURLWithTypes` writes parses back to the pairs it was built from |
| MenuQuery.Toggle | AppMenu.js:158-168 | an office or type checkbox gives the distinct old members in first-occurrence order, with the item appended when checked and absent, or removed when unchecked; no repeats |
| MenuQuery.ToggleState | AppMenu.js:125-134 | checking a state gives the distinct old states without `CONT`, in first-occurrence order, with the upper-cased code appended when new; unchecking removes the code; no repeats |
| MenuQuery.ContSelection | AppMenu.js:361-372 | the `CONT` checkbox writes a selection that shows as checked exactly when it was checked, made of plain upper-case text |
| MenuQuery.StateSelectRoundTrip | AppMenu.js:125-134 | after a state checkbox the page reads the toggled states, the same offices, and every other parameter as before |
| MenuQuery.OfficeSelectRoundTrip | AppMenu.js:158-168 | after an office checkbox the page reads the toggled offices, the same states, and every other parameter as before |
| MenuQuery.TypeSelectRoundTrip | AppMenu.js:205-213 | after a type checkbox the page reads the toggled types, the same states and offices, and every other parameter as before |
| MenuQuery.ContRoundTrip | AppMenu.js:361-372 | after the `CONT` checkbox, `CONT` shows as checked exactly when it was checked, and the offices are kept |
| MenuQuery.FindFirst | AppMenu.js:144 | `find` returns the first element that passes, or none when no element does |
| MenuQuery.StatesLabel | AppMenu.js:140-148 | the state label covers all five cases: none selected, `CONT` alone, a known state, an unknown one, several |
| MenuQuery.OfficesLabel | AppMenu.js:174-180 | the office label is "All Offices" for none or an unknown office, the office name for one, and a count for several |
| MenuQuery.DisplayLabel | AppMenu.js:224 | title casing keeps length and letters, ignoring case, and puts capitals exactly at word starts |
| MenuQuery.TypesLabel | AppMenu.js:219-228 | the type label is "All Types" for none or an unknown type, the title-cased label for one, and a count for several |
| MenuQuery.SearchFilter | AppMenu.js:150-155 | a blank search keeps the whole list; otherwise every listing kept matches the name or the code, ignoring case |
| MenuQuery.SearchFilterMembers | AppMenu.js:187-192 | with a search text, a listing is kept exactly when it is listed and matches |
| MenuQuery.SearchFilterAppend | AppMenu.js:150-155 | the search filter keeps the listing order |
| MenuQuery.OfficeListings | AppMenu.js:183-185 | the office list holds exactly the table entries except the `All` entry |
| MenuQuery.AllAlertsCount | AppMenu.js:254-255 | the total of non-negative counts is non-negative |
| MenuQuery.AllAlertsCountAppend | AppMenu.js:254-255 | the total over a concatenation of type lists is the sum of the totals, and an empty list totals zero |
| MenuQuery.AllAlertsCountSingle | AppMenu.js:254-255 | one type contributes its count, zero when the count is missing, and nothing if it is `TOR_EMERGENCY` |
| MenuQuery.AllAlertsCountIgnoresTor | AppMenu.js:253-255 | the total does not depend on the `TOR_EMERGENCY` count |
| AppMenu.StringSet.constructor | AppMenu.js:126 | `new Set(xs)` holds the distinct members of `xs` in first-occurrence order |
| AppMenu.StringSet.Add | AppMenu.js:128 | `add` is `Insert` on the members |
| AppMenu.StringSet.Delete | AppMenu.js:129 | `delete` is `Remove` on the members |
| AppMenu.SetStateWfo | AppMenu.js:38-60 | the `set` calls leave a `state` entry, then a `wfo` entry, each only when it has pieces |
| AppMenu.AppendOthers | AppMenu.js:62-65 | the `forEach` appends exactly the other pairs, in order |
| AppMenu.FormatQueryParams | AppMenu.js:32-68 | `formatQueryParams` returns the decoded serialization of the formatted pairs, or fails as gathering does |
| AppMenu.Menu.constructor | AppMenu.js:76-102 | the menu holds the selections decoded from its parameters and has not navigated |
| AppMenu.Menu.Navigate | AppMenu.js:106-122 | `updateURL` hands the router the target `UpdateUrl` builds from the page's parameters |
| AppMenu.Menu.NavigateWithTypes | AppMenu.js:231-251 | `updateURLWithTypes` hands the router the target built from the current states and offices and the new types |
| AppMenu.Menu.StateSelect | AppMenu.js:125-134 | a state checkbox navigates to `updateURL` of the toggled states and the current offices |
| AppMenu.Menu.AllStates | AppMenu.js:136-138 | "all states" navigates with no states |
| AppMenu.Menu.OfficeSelect | AppMenu.js:158-168 | an office checkbox navigates to `updateURL` of the current states and the toggled offices |
| AppMenu.Menu.AllOffices | AppMenu.js:170-172 | "all offices" navigates with no offices |
| AppMenu.Menu.TypeSelect | AppMenu.js:205-213 | a type checkbox navigates to `updateURLWithTypes` of the toggled types |
| AppMenu.Menu.AllTypes | AppMenu.js:215-217 | "all types" navigates with no types |
| AppMenu.Menu.ContChange | AppMenu.js:361-372 | the `CONT` checkbox navigates with `["CONT"]` or no states |
| AppMenu.Menu.ShareLinkText | AppMenu.js:469 | the shareable link shown is `ShareLink` of the page |
| Settings.ValidZones | Settings.tsx:73-76 | every zone kept is three letters followed by three digits |
| Settings.SanitizeZoneInput | Settings.tsx:69-78 | the sanitised text has no whitespace, is ASCII, needs no escaping but commas, and is empty exactly when no valid zone was typed |
| Settings.SanitizedCodes | Settings.tsx:69-78 | a non-empty sanitised text splits back into exactly the valid zones |
| Settings.ValidZonesConcat | Settings.tsx:73-76 | the valid zones of comma-joined inputs are those of each input, in order |
| Settings.ValidZonesToken | Settings.tsx:75-76 | one comma-free token yields its upper-cased, space-free form exactly when that is a zone code |
| Settings.ValidZoneCode | Settings.tsx:73-76 | a single zone code is kept as it is |
| Settings.ValidZonesCons | Settings.tsx:73-77 | a zone code in front of a comma-joined list of kept codes is kept in front |
| Settings.SanitizeValidList | Settings.tsx:69-78 | a comma-joined list of zone codes is left unchanged |
| Settings.SanitizeIdempotent | Settings.tsx:69-78 | sanitising twice is sanitising once |
| Settings.EmptyInput | Settings.tsx:84-88 | empty input yields no zones and an empty sanitised text |
| Settings.CommaEncodeLiteral | Settings.tsx:89 | a sanitised zone list is written into the query verbatim |
| Settings.SetOrDelete | Settings.tsx:84-88 | after writing, the name is present exactly when the value is non-empty, and then with that value |
| Settings.CommaTarget | Settings.tsx:89-90 | the target is the bare pathname exactly when there are no parameters, and always starts with the pathname |
| Settings.ZoneTarget | Settings.tsx:81-90 | the zone target starts with the pathname |
| Settings.ColorsTarget | Settings.tsx:107-116 | the colours target starts with the pathname |
| Settings.SetOrDeleteSpec | Settings.tsx:84-88 | writing a parameter makes it read as the value, or absent when the value is empty, and leaves every other parameter as it was |
| Settings.DeleteAllTwice | Settings.tsx:87 | deleting a name twice is deleting it once |
| Settings.CommaTargetRoundTrip | Settings.tsx:89-90 | the query written with literal commas parses back to the pairs |
| Settings.WriteRoundTrip | Settings.tsx:83-90 | after writing, the page reads the written value (or nothing) under the name and every other parameter as before |
| Settings.ZoneTargetRoundTrip | Settings.tsx:81-92 | after `updateZoneParam`, `zone` reads the sanitised zones, or is absent, and every other parameter is unchanged |
| Settings.ZoneQueryLiteral | Settings.tsx:89 | the zone query is the serialization with literal commas, and the zones appear in it verbatim |
| Settings.ColorsTargetRoundTrip | Settings.tsx:107-117 | after `commitColorsToUrl`, `colors` reads the serialized colours, or is absent, and every other parameter is unchanged |
| Settings.IsHexColor | Settings.tsx:249 | a hex colour is `#` then three or six hex digits |
| Settings.Or | Settings.tsx:238 | `a \|\| b` on strings is empty exactly when both are |
| Settings.Displayed | Settings.tsx:238 | the displayed colour is never empty: the staged value, else the type's colour, else `#404040` |
| Settings.BlurStaged | Settings.tsx:257-264 | a valid text leaves the staged colours as they are; an invalid one adds or replaces only `key`, with a non-empty colour |
| Settings.BlurStagedSpec | Settings.tsx:257-264 | blurring touches only its own key and never changes any displayed colour; invalid text leaves a non-empty staged value, and valid text changes nothing |
| Settings.BlurStagedIdempotent | Settings.tsx:257-264 | blurring twice is blurring once |
| Settings.ColorsParam | Settings.tsx:38 | the colours parameter is present exactly when `get` gives a non-empty value, and is that value |
| Settings.ZoneParam | Settings.tsx:33 | the zone input starts as the `zone` parameter, or empty |
| Settings.SettingsDialog.constructor | Settings.tsx:33-58 | the dialog starts with the zone parameter, the parsed colours, closed, and the badge shown unless passive |
| Settings.SettingsDialog.OpenChange | Settings.tsx:44-50 | opening re-reads the staged colours from the query; the open flag follows |
| Settings.SettingsDialog.ShowNewBadgeChange | Settings.tsx:62-66 | the badge checkbox sets the flag and navigates to the query with passive mode set to the opposite |
| Settings.SettingsDialog.WriteParam | Settings.tsx:83-90 | writing a parameter navigates to the target written with literal commas |
| Settings.SettingsDialog.UpdateZoneParam | Settings.tsx:81-92 | `updateZoneParam` navigates to the zone target and shows the sanitised text in the input |
| Settings.SettingsDialog.ZoneInputChange | Settings.tsx:132-135 | typing leaves the input without whitespace |
| Settings.SettingsDialog.ZoneKeyDown | Settings.tsx:120-126 | Enter writes the zone parameter; other keys change nothing |
| Settings.SettingsDialog.ZoneBlur | Settings.tsx:127-129 | leaving the input writes the zone parameter |
| Settings.SettingsDialog.ColorChange | Settings.tsx:95-98 | a colour pick stages that colour for the type |
| Settings.SettingsDialog.ResetColors | Settings.tsx:101-104 | reset clears every staged colour |
| Settings.SettingsDialog.HexTextChange | Settings.tsx:246-256 | the hex field stages its text for the type, valid or not |
| Settings.SettingsDialog.HexTextBlur | Settings.tsx:257-264 | leaving the hex field applies `BlurStaged` |
| Settings.SettingsDialog.CommitColorsToUrl | Settings.tsx:107-117 | committing navigates to the colours target of the serialized staged colours |
| Settings.SettingsDialog.CloseButton | Settings.tsx:296-299 | Close writes the zone parameter and then the colours, in that order, and changes neither the open flag nor the badge |

## Left out

- Rendering (JSX), styling, tooltips and the font selector are not modelled: they hold no query logic.
- `localStorage` (`seenSettings`), the clipboard and `setTimeout` are not modelled: they are browser I/O.
- The `useEffect` re-synchronisations are not modelled; React schedules them. The menu and the dialog are built from one parameter list and do not re-render.
- The two search-text states are not modelled as state. `SearchFilter` takes the search text as a parameter.
- `parseColorsParam`, `serializeColorsParam`, `isPassiveMode` and `setPassiveMode` are parameters of `SettingsDialog`. `utils/queryParamUtils` is not part of this model, so nothing is proved about what they return.
- `US_STATES`, `NWSOfficeNames`, `ALERT_TYPES`, `TAILWIND_TO_HEX` and `alertTypeCounts` are parameters, because their tables are not part of this model.
- The router is a log of the targets handed to `router.replace`. Navigation itself is not modelled.
- Text.Upper: case mapping is ASCII only. JavaScript also maps non-ASCII letters, and that is not modelled.
- Text.Lower: ASCII only, for the same reason.
- UrlEncoding.DecodeURIComponent: a thrown `URIError` is `None`. The round-trip lemmas decode ASCII text only.
- MenuQuery.UpdateUrlRoundTrip: proved only for keys and values without `&`, `%`, `+`, `#`, tab or newline, a pathname without controls, spaces, `?` or `#`, and a written query that does not end in a control or space. The handlers write `key=value` without encoding, so such a character changes the parameters the next render reads; `TrailingBlankLost` and `TabOrNewlineLost` show two of these losses.
- MenuQuery.UpdateUrlIdempotent: the same restriction, for the same reason.
- MenuQuery.ReadJoined: a selection written as the single empty piece `[""]` is written as `state=` and reads back as no selection (`Shown`), because `searchParams.get` gives the empty string, which is falsy.
- MenuQuery.UpdateUrlWithTypesRoundTrip: the same restriction, for the same reason.
- MenuQuery.StateSelectRoundTrip: the same restriction, and the selections read must already be upper-case for states and offices.
- MenuQuery.OfficeSelectRoundTrip: the same restriction, and the selections read must already be upper-case for states and offices.
- MenuQuery.TypeSelectRoundTrip: the same restriction, and the selections read must already be upper-case for states and offices.
- MenuQuery.ContRoundTrip: the same restriction, and the selections read must already be upper-case for states and offices.
- Settings.WriteRoundTrip: proved for ASCII parameters only, because `FormDecode` decodes ASCII escapes only.
- UrlEncoding.FormDecode: a `%XX` escape of a byte above 127 becomes the single character of that code; the UTF-8 decoding of multi-byte sequences is not modelled. `ParseQuery` inherits this, so non-ASCII values are not claimed to read back.
- UrlEncoding.QueryOfTarget: requires a pathname without controls, spaces, `?` or `#`, and a query without `#`, tab or newline that does not end in a control or space. `QueryOfTargetStripped`, `TrailingBlankLost` and `TabOrNewlineLost` state what the parser does otherwise.
- UrlEncoding.QueryOf: the percent-encoding the URL parser applies to the query (spaces, quotes, `<`, `>` and non-ASCII) is not modelled, because the form-urlencoded parser decodes it again before `get` sees it.
- MenuQuery.ShareLinkPlain: states the link's text only for ASCII parameters without `%`.
- `updateURL` builds its parameters as `new URLSearchParams(searchParams.toString())`. That is taken to be the same list as `searchParams`, which the WHATWG serializer and parser guarantee for the pairs they produce.
- AppMenu.Menu.constructor: requires the three selections to decode. When one does not, `decodeURIComponent` throws during rendering and the menu is not shown.
- React batches state updates. When Enter is followed by the blur it triggers, the model makes two calls in sequence, with the zone input already sanitised.
- Settings.SanitizeZoneInput: duplicate zones are not removed and first-occurrence order is kept. The code writes the zone list exactly as filtered, so the model follows the code rather than a deduplicated list.
- Settings.BlurStagedSpec: the code stages the current text, or the type's colour, or `#404040` (`Settings.tsx:261`). It does not revert to an earlier valid colour, as its comment says. The model follows the code: an invalid text is kept.
- Only `AppMenu.js` and `Settings.tsx` are modelled. `AlertExpires.tsx`, `AlertTypeBar.tsx`, `ThemeProvider.js` and `page.tsx` are not part of this model.
