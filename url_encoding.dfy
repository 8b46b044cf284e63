/**
 * The string forms a query takes on its way to the address bar: the
 * application/x-www-form-urlencoded serializer and parser of section 5 of the
 * WHATWG URL Standard (what `URLSearchParams.toString` and the
 * `URLSearchParams` constructor use), the `replace(/%2C/g, ",")` rewrite that
 * puts commas back, `decodeURIComponent` of ECMA-262, and the plain
 * `key=value&...` rendering the menu builds by hand.
 */
module UrlEncoding {
  import opened Text
  import opened Wrappers

  /** A query as an ordered list of name-value pairs; names may repeat. */
  type Pair = (string, string)
  type Params = seq<Pair>

  /** A C0 control or a space: what the URL parser trims from both ends of its input. */
  predicate IsC0OrSpace(c: char) { c <= ' ' }

  /** Tab, line feed or carriage return: what the URL parser removes wherever it appears. */
  predicate IsTabOrNewline(c: char) { c == '\t' || c == '\n' || c == '\r' }

  predicate NoBlank(s: string) { forall i :: 0 <= i < |s| ==> !IsC0OrSpace(s[i]) }

  predicate IsHexDigit(c: char) { IsDigit(c) || 'A' <= c <= 'F' || 'a' <= c <= 'f' }

  function HexValue(c: char): (v: nat)
    requires IsHexDigit(c)
    ensures v < 16
  {
    if IsDigit(c) then c as int - '0' as int
    else if 'A' <= c <= 'F' then c as int - 'A' as int + 10
    else c as int - 'a' as int + 10
  }

  /** The upper-case hexadecimal digit of `d`, the one the serializer writes. */
  function HexChar(d: nat): (c: char)
    requires d < 16
    ensures IsHexDigit(c) && HexValue(c) == d
    ensures c != '%' && c != '+'
  {
    if d < 10 then ('0' as int + d) as char else ('A' as int + d - 10) as char
  }

  // ---------------------------------------------------------------------------
  // Serializer (section 5.2 of the WHATWG URL Standard)
  // ---------------------------------------------------------------------------

  /** Bytes of the UTF-8 encoding of one scalar value. */
  function Utf8(c: char): (bs: seq<nat>)
    ensures 1 <= |bs| <= 4
    ensures forall i :: 0 <= i < |bs| ==> bs[i] < 256
    ensures IsAscii(c) ==> bs == [c as int]
    ensures !IsAscii(c) ==> forall i :: 0 <= i < |bs| ==> bs[i] >= 0x80
  {
    var cp := c as int;
    if cp < 0x80 then [cp]
    else if cp < 0x800 then [0xC0 + cp / 64, 0x80 + cp % 64]
    else if cp < 0x10000 then [0xE0 + cp / 4096, 0x80 + (cp / 64) % 64, 0x80 + cp % 64]
    else [0xF0 + cp / 262144, 0x80 + (cp / 4096) % 64, 0x80 + (cp / 64) % 64, 0x80 + cp % 64]
  }

  /** The characters the form-urlencoded serializer leaves unchanged. */
  predicate IsFormSafe(c: char)
  {
    IsAsciiLower(c) || IsAsciiUpper(c) || IsDigit(c) || c == '*' || c == '-' || c == '.' || c == '_'
  }

  /** `%XX` for each byte, upper-case hexadecimal. */
  function Escape(bs: seq<nat>): (r: string)
    requires forall i :: 0 <= i < |bs| ==> bs[i] < 256
    ensures |r| == 3 * |bs|
  {
    if bs == [] then ""
    else ['%', HexChar(bs[0] / 16), HexChar(bs[0] % 16)] + Escape(bs[1..])
  }

  /** An escape is written only with `%` and hexadecimal digits. */
  lemma {:induction false} EscapeAlphabet(bs: seq<nat>)
    requires forall i :: 0 <= i < |bs| ==> bs[i] < 256
    ensures forall i :: 0 <= i < |Escape(bs)| ==> Escape(bs)[i] == '%' || IsHexDigit(Escape(bs)[i])
    decreases |bs|
  {
    if bs != [] {
      EscapeAlphabet(bs[1..]);
      var e, t := ['%', HexChar(bs[0] / 16), HexChar(bs[0] % 16)], Escape(bs[1..]);
      assert Escape(bs) == e + t;
      assert forall i :: 3 <= i < |e + t| ==> (e + t)[i] == t[i - 3];
    }
  }

  function EncodeChar(c: char): (r: string)
    ensures r != ""
    ensures forall i :: 0 <= i < |r| ==> r[i] == '%' || r[i] == '+' || IsFormSafe(r[i]) || IsHexDigit(r[i])
  {
    if c == ' ' then "+" else if IsFormSafe(c) then [c] else EscapeAlphabet(Utf8(c)); Escape(Utf8(c))
  }

  /** The form-urlencoded byte serializer applied to one name or value: empty only for the empty text. */
  function FormEncode(s: string): (r: string)
    ensures r == "" <==> s == ""
  {
    if s == [] then "" else EncodeChar(s[0]) + FormEncode(s[1..])
  }

  /**
   * The serializer writes a name or value only with `%`, `+`, hexadecimal
   * digits and the characters it leaves alone.
   */
  lemma {:induction false} FormEncodeAlphabet(s: string)
    ensures forall i :: 0 <= i < |FormEncode(s)| ==>
              var c := FormEncode(s)[i]; c == '%' || c == '+' || IsFormSafe(c) || IsHexDigit(c)
    decreases |s|
  {
    if s != [] {
      FormEncodeAlphabet(s[1..]);
      var e, t := EncodeChar(s[0]), FormEncode(s[1..]);
      assert FormEncode(s) == e + t;
      assert forall i :: |e| <= i < |e + t| ==> (e + t)[i] == t[i - |e|];
    }
  }

  function EncodedPairs(ps: Params): seq<string>
  {
    if ps == [] then [] else [FormEncode(ps[0].0) + "=" + FormEncode(ps[0].1)] + EncodedPairs(ps[1..])
  }

  /** `URLSearchParams.toString()`: empty exactly when there are no pairs. */
  function FormSerialize(ps: Params): (s: string)
    ensures s == "" <==> ps == []
  {
    assert ps != [] ==> '=' in EncodedPairs(ps)[0];
    Join(EncodedPairs(ps), '&')
  }

  // ---------------------------------------------------------------------------
  // The `%2C` -> `,` rewrite
  // ---------------------------------------------------------------------------

  /**
   * `s.replace(/%2C/g, ",")`: a left-to-right scan that replaces each `%2C`;
   * never longer than its input, and empty only for the empty text.
   */
  function UnescapeCommas(s: string): (r: string)
    ensures |r| <= |s|
    ensures r == "" <==> s == ""
    decreases |s|
  {
    if |s| >= 3 && s[0] == '%' && s[1] == '2' && s[2] == 'C' then "," + UnescapeCommas(s[3..])
    else if s == [] then ""
    else [s[0]] + UnescapeCommas(s[1..])
  }

  /** The serializer's output for one character, with a comma left literal. */
  function CommaEncodeChar(c: char): string
  {
    if c == ',' then "," else EncodeChar(c)
  }

  /**
   * No comma-literal encoding contains a pair or name-value delimiter, a
   * fragment mark, a control character or a space.
   */
  function CommaEncode(s: string): (r: string)
    ensures '&' !in r && '=' !in r
  {
    if s == [] then "" else CommaEncodeChar(s[0]) + CommaEncode(s[1..])
  }

  /** Nor does it hold a fragment mark, a control character or a space. */
  lemma {:induction false} CommaEncodeKept(s: string)
    ensures '#' !in CommaEncode(s) && NoBlank(CommaEncode(s))
    decreases |s|
  {
    if s != [] {
      CommaEncodeKept(s[1..]);
      var e, t := CommaEncodeChar(s[0]), CommaEncode(s[1..]);
      if s[0] != ',' {
        assert forall i :: 0 <= i < |e| ==> e[i] == '%' || e[i] == '+' || IsFormSafe(e[i]) || IsHexDigit(e[i]);
      }
      assert '#' !in e && NoBlank(e);
      NoBlankAppend(e, t);
      assert CommaEncode(s) == e + t;
    }
  }

  lemma NoBlankAppend(a: string, b: string)
    requires NoBlank(a) && NoBlank(b)
    ensures NoBlank(a + b)
  {
    assert forall i :: |a| <= i < |a + b| ==> (a + b)[i] == b[i - |a|];
  }

  function CommaPairs(ps: Params): (xs: seq<string>)
    ensures |xs| == |ps|
    ensures forall i :: 0 <= i < |xs| ==> '#' !in xs[i] && NoBlank(xs[i])
  {
    if ps == [] then []
    else
      CommaEncodeKept(ps[0].0);
      CommaEncodeKept(ps[0].1);
      [CommaEncode(ps[0].0) + "=" + CommaEncode(ps[0].1)] + CommaPairs(ps[1..])
  }

  /**
   * The query the settings dialog writes: serialized, then commas put back;
   * empty exactly when there are no pairs, and free of fragment marks,
   * controls and spaces.
   */
  function CommaSerialize(ps: Params): (s: string)
    ensures s == "" <==> ps == []
    ensures '#' !in s && NoBlank(s)
  {
    assert ps != [] ==> '=' in CommaPairs(ps)[0];
    JoinKeeps(CommaPairs(ps), '&', '#');
    JoinNoBlank(CommaPairs(ps), '&');
    Join(CommaPairs(ps), '&')
  }

  lemma {:induction false} JoinNoBlank(xs: seq<string>, sep: char)
    requires !IsC0OrSpace(sep)
    requires forall i :: 0 <= i < |xs| ==> NoBlank(xs[i])
    ensures NoBlank(Join(xs, sep))
    decreases |xs|
  {
    if |xs| >= 2 {
      JoinNoBlank(xs[1..], sep);
    }
  }

  lemma UnescapeSkipsPlain(c: char, rest: string)
    requires c != '%'
    ensures UnescapeCommas([c] + rest) == [c] + UnescapeCommas(rest)
  {
    assert ([c] + rest)[1..] == rest;
  }

  /** A `%XX` escape of any byte but 0x2C passes the rewrite unchanged. */
  lemma UnescapeSkipsByte(b: nat, tail: string)
    requires b < 256 && b != 0x2C
    ensures UnescapeCommas(['%', HexChar(b / 16), HexChar(b % 16)] + tail)
         == ['%', HexChar(b / 16), HexChar(b % 16)] + UnescapeCommas(tail)
  {
    var hi, lo := HexChar(b / 16), HexChar(b % 16);
    assert !(hi == '2' && lo == 'C');
    var x := ['%', hi, lo] + tail;
    assert x[1..] == [hi] + ([lo] + tail);
    UnescapeSkipsPlain(hi, [lo] + tail);
    UnescapeSkipsPlain(lo, tail);
  }

  lemma {:induction false} UnescapeSkipsEscape(bs: seq<nat>, rest: string)
    requires forall i :: 0 <= i < |bs| ==> bs[i] < 256 && bs[i] != 0x2C
    ensures UnescapeCommas(Escape(bs) + rest) == Escape(bs) + UnescapeCommas(rest)
    decreases |bs|
  {
    if bs != [] {
      var e, t := ['%', HexChar(bs[0] / 16), HexChar(bs[0] % 16)], Escape(bs[1..]);
      assert Escape(bs) == e + t;
      Regroup3(e, t, rest);
      UnescapeSkipsByte(bs[0], t + rest);
      UnescapeSkipsEscape(bs[1..], rest);
      Regroup3(e, t, UnescapeCommas(rest));
    } else {
      assert Escape(bs) + rest == rest;
    }
  }

  lemma UnescapeEncodedChar(c: char, rest: string)
    ensures UnescapeCommas(EncodeChar(c) + rest) == CommaEncodeChar(c) + UnescapeCommas(rest)
  {
    if c == ',' {
      assert Utf8(c) == [0x2C];
      assert EncodeChar(c) == "%2C";
      assert ("%2C" + rest)[3..] == rest;
    } else if c == ' ' {
      UnescapeSkipsPlain('+', rest);
    } else if IsFormSafe(c) {
      UnescapeSkipsPlain(c, rest);
    } else {
      UnescapeSkipsEscape(Utf8(c), rest);
    }
  }

  lemma {:induction false} UnescapeEncoded(s: string, rest: string)
    ensures UnescapeCommas(FormEncode(s) + rest) == CommaEncode(s) + UnescapeCommas(rest)
    decreases |s|
  {
    if s != [] {
      var e := EncodeChar(s[0]);
      var tail := FormEncode(s[1..]) + rest;
      assert FormEncode(s) + rest == e + tail;
      UnescapeEncodedChar(s[0], tail);
      UnescapeEncoded(s[1..], rest);
      assert CommaEncode(s) == CommaEncodeChar(s[0]) + CommaEncode(s[1..]);
    } else {
      assert FormEncode(s) + rest == rest;
    }
  }

  /** A join of a non-empty list: its head, then `&` and the join of its tail. */
  lemma JoinCons(xs: seq<string>)
    requires xs != []
    ensures Join(xs, '&') == xs[0] + (if |xs| == 1 then "" else "&" + Join(xs[1..], '&'))
  {
  }

  /** Regrouping a concatenation of four strings to the right. */
  lemma Regroup(a: string, b: string, c: string, d: string)
    ensures (a + b + c) + d == a + (b + (c + d))
  {
  }

  lemma FormSerializeCons(ps: Params)
    requires ps != []
    ensures FormSerialize(ps) == FormEncode(ps[0].0) + ("=" + (FormEncode(ps[0].1)
              + (if |ps| == 1 then "" else "&" + FormSerialize(ps[1..]))))
  {
    var xs := EncodedPairs(ps);
    var tail := if |ps| == 1 then "" else "&" + FormSerialize(ps[1..]);
    assert xs[0] == FormEncode(ps[0].0) + "=" + FormEncode(ps[0].1);
    assert xs[1..] == EncodedPairs(ps[1..]);
    JoinCons(xs);
    assert FormSerialize(ps) == xs[0] + tail;
    Regroup(FormEncode(ps[0].0), "=", FormEncode(ps[0].1), tail);
  }

  lemma CommaSerializeCons(ps: Params)
    requires ps != []
    ensures CommaSerialize(ps) == CommaEncode(ps[0].0) + ("=" + (CommaEncode(ps[0].1)
              + (if |ps| == 1 then "" else "&" + CommaSerialize(ps[1..]))))
  {
    var xs := CommaPairs(ps);
    var tail := if |ps| == 1 then "" else "&" + CommaSerialize(ps[1..]);
    assert xs[0] == CommaEncode(ps[0].0) + "=" + CommaEncode(ps[0].1);
    assert xs[1..] == CommaPairs(ps[1..]);
    JoinCons(xs);
    assert CommaSerialize(ps) == xs[0] + tail;
    Regroup(CommaEncode(ps[0].0), "=", CommaEncode(ps[0].1), tail);
  }

  /**
   * Rewriting `%2C` in the serializer's output yields exactly the serialization
   * in which commas are literal and every other character stays encoded.
   */
  lemma {:induction false} UnescapeSerialized(ps: Params)
    ensures UnescapeCommas(FormSerialize(ps)) == CommaSerialize(ps)
    decreases |ps|
  {
    if ps != [] {
      var k, v := ps[0].0, ps[0].1;
      var tail := if |ps| == 1 then "" else "&" + FormSerialize(ps[1..]);
      var ctail := if |ps| == 1 then "" else "&" + CommaSerialize(ps[1..]);
      FormSerializeCons(ps);
      CommaSerializeCons(ps);
      if |ps| > 1 {
        UnescapeSerialized(ps[1..]);
        UnescapeSkipsPlain('&', FormSerialize(ps[1..]));
      }
      assert UnescapeCommas(tail) == ctail;
      UnescapeEncoded(v, tail);
      UnescapeSkipsPlain('=', FormEncode(v) + tail);
      UnescapeEncoded(k, "=" + (FormEncode(v) + tail));
    }
  }

  // ---------------------------------------------------------------------------
  // decodeURIComponent (ECMA-262, section 19.2.6.2)
  // ---------------------------------------------------------------------------

  /** The byte of a `%XX` escape at the start of `s`, if there is one. */
  function EscapedByte(s: string): (b: Option<nat>)
    ensures b.Some? ==> |s| >= 3 && b.value < 256
  {
    if |s| >= 3 && s[0] == '%' && IsHexDigit(s[1]) && IsHexDigit(s[2])
    then Some(HexValue(s[1]) * 16 + HexValue(s[2]))
    else None
  }

  /** `n` continuation bytes (`%80` to `%BF`), as escapes at the start of `s`. */
  function Continuations(s: string, n: nat): (r: Option<seq<nat>>)
    ensures r.Some? ==> |r.value| == n && 3 * n <= |s|
    ensures r.Some? ==> forall i :: 0 <= i < n ==> 0x80 <= r.value[i] < 0xC0
  {
    if n == 0 then Some([])
    else match EscapedByte(s)
      case None => None
      case Some(b) =>
        if b < 0x80 || b >= 0xC0 then None
        else match Continuations(s[3..], n - 1)
          case None => None
          case Some(bs) => Some([b] + bs)
  }

  /**
   * The code point a lead byte and its continuation bytes encode, when they are
   * the UTF-8 encoding of a scalar value (no overlong form, no surrogate, nothing
   * above U+10FFFF); `None` when they are not.
   */
  function Utf8Scalar(lead: nat, cont: seq<nat>): (r: Option<char>)
    requires 0xC2 <= lead <= 0xF4 && 1 <= |cont| <= 3
    requires forall i :: 0 <= i < |cont| ==> 0x80 <= cont[i] < 0xC0
  {
    if |cont| == 1 then
      var cp := (lead - 0xC0) * 64 + (cont[0] - 0x80);
      if lead <= 0xDF then Some(cp as char) else None
    else if |cont| == 2 then
      var cp := (lead - 0xE0) * 4096 + (cont[0] - 0x80) * 64 + (cont[1] - 0x80);
      if 0xE0 <= lead <= 0xEF && cp >= 0x800 && !(0xD800 <= cp <= 0xDFFF) then Some(cp as char) else None
    else
      var cp := (lead - 0xF0) * 262144 + (cont[0] - 0x80) * 4096 + (cont[1] - 0x80) * 64 + (cont[2] - 0x80);
      if 0xF0 <= lead && 0x10000 <= cp <= 0x10FFFF then Some(cp as char) else None
  }

  /**
   * `decodeURIComponent(s)`: every `%XX` escape sequence is decoded as UTF-8;
   * `None` stands for the `URIError` it throws on a malformed escape or on
   * bytes that are not valid UTF-8.
   */
  function DecodeURIComponent(s: string): (r: Option<string>)
    ensures r.Some? ==> |r.value| <= |s|
    decreases |s|, 1
  {
    if s == [] then Some("")
    else if s[0] != '%' then
      match DecodeURIComponent(s[1..])
      case None => None
      case Some(t) => Some([s[0]] + t)
    else match EscapedByte(s)
      case None => None
      case Some(b) =>
        if b < 0x80 then
          match DecodeURIComponent(s[3..])
          case None => None
          case Some(t) => Some([b as char] + t)
        else DecodeMultiByte(s, b)
  }

  /** The rest of `decodeURIComponent` once `s` starts with the escape of a lead byte `b`. */
  function DecodeMultiByte(s: string, b: nat): (r: Option<string>)
    requires |s| >= 3 && 0x80 <= b < 256
    ensures r.Some? ==> |r.value| <= |s| - 2
    decreases |s|, 0
  {
    if b < 0xC2 || b > 0xF4 then None
    else
      var n := if b <= 0xDF then 1 else if b <= 0xEF then 2 else 3;
      match Continuations(s[3..], n)
      case None => None
      case Some(cont) =>
        match Utf8Scalar(b, cont)
        case None => None
        case Some(c) =>
          match DecodeURIComponent(s[3 + 3 * n..])
          case None => None
          case Some(t) => Some([c] + t)
  }

  /** Each space written as `+`: what the serializer makes of a space once its escapes are decoded. */
  function SpaceAsPlus(s: string): (r: string)
    ensures |r| == |s|
  {
    if s == [] then "" else [if s[0] == ' ' then '+' else s[0]] + SpaceAsPlus(s[1..])
  }

  lemma DecodePlain(c: char, rest: string, t: string)
    requires c != '%'
    requires DecodeURIComponent(rest) == Some(t)
    ensures DecodeURIComponent([c] + rest) == Some([c] + t)
  {
    assert ([c] + rest)[1..] == rest;
  }

  /** Text without a `%` decodes to itself. */
  lemma {:induction false} DecodeNoPercent(s: string)
    requires '%' !in s
    ensures DecodeURIComponent(s) == Some(s)
    decreases |s|
  {
    if s != [] {
      DecodeNoPercent(s[1..]);
      DecodePlain(s[0], s[1..], s[1..]);
      assert [s[0]] + s[1..] == s;
    }
  }

  lemma DecodeEncodedChar(c: char, tail: string, t: string)
    requires IsAscii(c)
    requires DecodeURIComponent(tail) == Some(t)
    ensures DecodeURIComponent(EncodeChar(c) + tail) == Some([if c == ' ' then '+' else c] + t)
  {
    if c == ' ' {
      DecodePlain('+', tail, t);
    } else if IsFormSafe(c) {
      DecodePlain(c, tail, t);
    } else {
      var b := c as int;
      assert Utf8(c) == [b];
      assert Escape([b]) == ['%', HexChar(b / 16), HexChar(b % 16)] + Escape([]);
      var x := EncodeChar(c) + tail;
      assert x[3..] == tail;
      assert EscapedByte(x) == Some(b);
    }
  }

  lemma {:induction false} DecodeEncoded(s: string, rest: string, t: string)
    requires AllAscii(s)
    requires DecodeURIComponent(rest) == Some(t)
    ensures DecodeURIComponent(FormEncode(s) + rest) == Some(SpaceAsPlus(s) + t)
    decreases |s|
  {
    if s != [] {
      var tail := FormEncode(s[1..]) + rest;
      DecodeEncoded(s[1..], rest, t);
      assert FormEncode(s) == EncodeChar(s[0]) + FormEncode(s[1..]);
      Regroup3(EncodeChar(s[0]), FormEncode(s[1..]), rest);
      var c := s[0];
      var d := [if c == ' ' then '+' else c];
      DecodeEncodedChar(c, tail, SpaceAsPlus(s[1..]) + t);
      assert SpaceAsPlus(s) == d + SpaceAsPlus(s[1..]);
      Regroup3(d, SpaceAsPlus(s[1..]), t);
    } else {
      assert FormEncode(s) + rest == rest;
      assert SpaceAsPlus(s) + t == t;
    }
  }

  lemma RenderCons(ps: Params)
    requires ps != []
    ensures RenderQuery(ps) == ps[0].0 + ("=" + (ps[0].1
              + (if |ps| == 1 then "" else "&" + RenderQuery(ps[1..]))))
  {
    var xs := RenderedPairs(ps);
    assert xs[1..] == RenderedPairs(ps[1..]);
    JoinCons(xs);
  }

  lemma RenderPlusCons(ps: Params)
    requires ps != []
    ensures RenderQuery(PlusPairs(ps)) == SpaceAsPlus(ps[0].0) + ("=" + (SpaceAsPlus(ps[0].1)
              + (if |ps| == 1 then "" else "&" + RenderQuery(PlusPairs(ps[1..])))))
  {
    var qs := PlusPairs(ps);
    assert qs[0] == (SpaceAsPlus(ps[0].0), SpaceAsPlus(ps[0].1));
    assert qs[1..] == PlusPairs(ps[1..]);
    RenderCons(qs);
  }

  /**
   * Decoding the serializer's output of ASCII pairs never throws and gives the
   * plain `key=value&...` text, each space shown as `+`.
   */
  lemma {:induction false} DecodeSerialized(ps: Params)
    requires forall i :: 0 <= i < |ps| ==> AllAscii(ps[i].0) && AllAscii(ps[i].1)
    ensures DecodeURIComponent(FormSerialize(ps)) == Some(RenderQuery(PlusPairs(ps)))
    decreases |ps|
  {
    if ps != [] {
      var k, v := ps[0].0, ps[0].1;
      var tail := if |ps| == 1 then "" else "&" + FormSerialize(ps[1..]);
      var dtail := if |ps| == 1 then "" else "&" + RenderQuery(PlusPairs(ps[1..]));
      FormSerializeCons(ps);
      RenderPlusCons(ps);
      if |ps| > 1 {
        DecodeSerialized(ps[1..]);
        DecodePlain('&', FormSerialize(ps[1..]), RenderQuery(PlusPairs(ps[1..])));
      }
      assert DecodeURIComponent(tail) == Some(dtail);
      DecodeEncoded(v, tail, dtail);
      DecodePlain('=', FormEncode(v) + tail, SpaceAsPlus(v) + dtail);
      DecodeEncoded(k, "=" + (FormEncode(v) + tail), "=" + (SpaceAsPlus(v) + dtail));
    }
  }

  function PlusPairs(ps: Params): (r: Params)
    ensures |r| == |ps|
  {
    if ps == [] then [] else [(SpaceAsPlus(ps[0].0), SpaceAsPlus(ps[0].1))] + PlusPairs(ps[1..])
  }

  // ---------------------------------------------------------------------------
  // The hand-built `key=value&...` text and navigation targets
  // ---------------------------------------------------------------------------

  function RenderedPairs(ps: Params): seq<string>
  {
    if ps == [] then [] else [ps[0].0 + "=" + ps[0].1] + RenderedPairs(ps[1..])
  }

  /** `pairs.map(([k, v]) => `${k}=${v}`).join("&")`: no encoding at all. */
  function RenderQuery(ps: Params): (q: string)
    ensures q == "" <==> ps == []
  {
    assert ps != [] ==> '=' in RenderedPairs(ps)[0];
    Join(RenderedPairs(ps), '&')
  }

  /** `${pathname}${query ? `?${query}` : ""}`: the argument of `router.replace`. */
  function Target(pathname: string, query: string): (t: string)
    ensures query == "" ==> t == pathname
    ensures query != "" ==> |t| > |pathname| && t[|pathname|] == '?'
  {
    pathname + (if query == "" then "" else "?" + query)
  }

  /** The input with its leading C0 controls and spaces removed. */
  function TrimBlankStart(s: string): (r: string)
    ensures |r| <= |s|
    ensures r == [] || !IsC0OrSpace(r[0])
    decreases |s|
  {
    if s != [] && IsC0OrSpace(s[0]) then TrimBlankStart(s[1..]) else s
  }

  /** The input with its trailing C0 controls and spaces removed. */
  function TrimBlankEnd(s: string): (r: string)
    ensures |r| <= |s| && r == s[..|r|]
    ensures r == [] || !IsC0OrSpace(r[|r| - 1])
    ensures forall i :: |r| <= i < |s| ==> IsC0OrSpace(s[i])
    decreases |s|
  {
    if s != [] && IsC0OrSpace(s[|s| - 1]) then TrimBlankEnd(s[..|s| - 1]) else s
  }

  /** The input with every tab, line feed and carriage return removed, the rest in order. */
  function RemoveTabsAndNewlines(s: string): (r: string)
    ensures |r| <= |s|
    ensures '\t' !in r && '\n' !in r && '\r' !in r
    ensures forall c :: c in r ==> c in s
    decreases |s|
  {
    if s == [] then ""
    else if IsTabOrNewline(s[0]) then RemoveTabsAndNewlines(s[1..])
    else [s[0]] + RemoveTabsAndNewlines(s[1..])
  }

  /** The text before the first `#`: a query ends where the fragment begins. */
  function BeforeHash(s: string): (r: string)
    ensures |r| <= |s| && r == s[..|r|] && '#' !in r
    ensures |r| < |s| ==> s[|r|] == '#'
    decreases |s|
  {
    if s == [] || s[0] == '#' then "" else [s[0]] + BeforeHash(s[1..])
  }

  /**
   * The query the URL parser finds in its (already cleaned) input: the text
   * after the first `?` up to the first `#`; none when a `#` comes first or
   * there is no `?`.
   */
  function QueryPart(s: string): (q: string)
    ensures '#' !in q
    ensures forall c :: c in q ==> c in s
    decreases |s|
  {
    if s == [] || s[0] == '#' then ""
    else if s[0] == '?' then
      var r := BeforeHash(s[1..]);
      assert forall c :: c in r ==> c in s[1..];
      r
    else QueryPart(s[1..])
  }

  /**
   * The query of a navigation target as the URL parser sees it: leading and
   * trailing C0 controls and spaces are trimmed, tabs and newlines removed,
   * and the query is what lies between the first `?` and the first `#`.
   */
  function QueryOf(target: string): (q: string)
    ensures '#' !in q && '\t' !in q && '\n' !in q && '\r' !in q
  {
    QueryPart(RemoveTabsAndNewlines(TrimBlankEnd(TrimBlankStart(target))))
  }

  /** The parameters the page has after navigating to `target`. */
  function ParamsAfter(target: string): Params
  {
    ParseQuery(QueryOf(target))
  }

  // ---------------------------------------------------------------------------
  // Parser (section 5.1 of the WHATWG URL Standard)
  // ---------------------------------------------------------------------------

  /**
   * A name or value as the parser decodes it: `+` becomes a space, then each
   * `%XX` escape of an ASCII byte is decoded; a `%` not followed by two
   * hexadecimal digits is kept as it is.
   */
  function FormDecode(s: string): (r: string)
    ensures |r| <= |s|
    decreases |s|
  {
    if s == [] then ""
    else if s[0] == '+' then " " + FormDecode(s[1..])
    else match EscapedByte(s)
      case Some(b) =>
        if b < 0x80 then [b as char] + FormDecode(s[3..]) else [s[0]] + FormDecode(s[1..])
      case None => [s[0]] + FormDecode(s[1..])
  }

  /** A sequence split at its first `=`; the value is empty when there is none. */
  function SplitAtEquals(x: string): (string, string)
  {
    if x == [] then ("", "")
    else if x[0] == '=' then ("", x[1..])
    else var (n, v) := SplitAtEquals(x[1..]); ([x[0]] + n, v)
  }

  function ParseSequences(xs: seq<string>): (ps: Params)
    ensures |ps| <= |xs|
  {
    if xs == [] then []
    else
      (if xs[0] == "" then [] else [(FormDecode(SplitAtEquals(xs[0]).0), FormDecode(SplitAtEquals(xs[0]).1))])
      + ParseSequences(xs[1..])
  }

  /**
   * `new URLSearchParams(query)`: the pairs of a query string, at most one per
   * `&`-separated sequence and none for the empty query.
   */
  function ParseQuery(q: string): (ps: Params)
    ensures |ps| <= |Split(q, '&')|
    ensures q == "" ==> ps == []
  {
    ParseSequences(Split(q, '&'))
  }

  // ---------------------------------------------------------------------------
  // Round trips through the parser
  // ---------------------------------------------------------------------------

  /** Text the hand-built query carries through a parse unchanged. */
  predicate PlainValue(s: string)
  {
    '&' !in s && '%' !in s && '+' !in s && '#' !in s && '\t' !in s && '\n' !in s && '\r' !in s
  }
  predicate PlainKey(s: string) { PlainValue(s) && '=' !in s }
  predicate PlainParams(ps: Params)
  {
    forall i :: 0 <= i < |ps| ==> PlainKey(ps[i].0) && PlainValue(ps[i].1)
  }

  predicate AsciiParams(ps: Params)
  {
    forall i :: 0 <= i < |ps| ==> AllAscii(ps[i].0) && AllAscii(ps[i].1)
  }

  lemma {:induction false} FormDecodePlain(s: string)
    requires '%' !in s && '+' !in s
    ensures FormDecode(s) == s
    decreases |s|
  {
    if s != [] {
      FormDecodePlain(s[1..]);
      assert EscapedByte(s) == None;
      assert s == [s[0]] + s[1..];
    }
  }

  lemma {:induction false} SplitAtEqualsPair(k: string, v: string)
    requires '=' !in k
    ensures SplitAtEquals(k + "=" + v) == (k, v)
    decreases |k|
  {
    if k == [] {
      assert k + "=" + v == "=" + v;
      assert ("=" + v)[1..] == v;
    } else {
      SplitAtEqualsPair(k[1..], v);
      assert (k + "=" + v)[1..] == k[1..] + "=" + v;
      assert [k[0]] + k[1..] == k;
    }
  }

  lemma {:induction false} ParseSequencesRendered(ps: Params)
    requires PlainParams(ps)
    ensures ParseSequences(RenderedPairs(ps)) == ps
    decreases |ps|
  {
    if ps != [] {
      var xs := RenderedPairs(ps);
      var k, v := ps[0].0, ps[0].1;
      assert xs[0] == k + "=" + v && xs[0] != "";
      assert xs[1..] == RenderedPairs(ps[1..]);
      SplitAtEqualsPair(k, v);
      FormDecodePlain(k);
      FormDecodePlain(v);
      ParseSequencesRendered(ps[1..]);
      assert [ps[0]] + ps[1..] == ps;
    }
  }

  /** The hand-built `key=value&...` text parses back to the pairs it was built from. */
  lemma ParseRendered(ps: Params)
    requires PlainParams(ps)
    ensures ParseQuery(RenderQuery(ps)) == ps
  {
    var xs := RenderedPairs(ps);
    if ps == [] {
      assert ParseQuery(RenderQuery(ps)) == ParseSequences([""]);
    } else {
      assert forall i :: 0 <= i < |xs| ==> '&' !in xs[i] by {
        RenderedPairsKeep(ps, '&');
      }
      SplitJoin(xs, '&');
      ParseSequencesRendered(ps);
    }
  }

  /** A character other than `=` that no name or value holds is in no rendered pair. */
  lemma {:induction false} RenderedPairsKeep(ps: Params, c: char)
    requires c != '='
    requires forall i :: 0 <= i < |ps| ==> c !in ps[i].0 && c !in ps[i].1
    ensures |RenderedPairs(ps)| == |ps|
    ensures forall i :: 0 <= i < |ps| ==> c !in RenderedPairs(ps)[i]
    decreases |ps|
  {
    if ps != [] {
      RenderedPairsKeep(ps[1..], c);
      assert RenderedPairs(ps)[1..] == RenderedPairs(ps[1..]);
    }
  }

  /** The hand-built text of plain pairs holds no fragment mark, tab or newline. */
  lemma RenderQueryPlain(ps: Params)
    requires PlainParams(ps)
    ensures '#' !in RenderQuery(ps) && '\t' !in RenderQuery(ps) && '\n' !in RenderQuery(ps) && '\r' !in RenderQuery(ps)
  {
    RenderedPairsKeep(ps, '#');
    RenderedPairsKeep(ps, '\t');
    RenderedPairsKeep(ps, '\n');
    RenderedPairsKeep(ps, '\r');
    JoinKeeps(RenderedPairs(ps), '&', '#');
    JoinKeeps(RenderedPairs(ps), '&', '\t');
    JoinKeeps(RenderedPairs(ps), '&', '\n');
    JoinKeeps(RenderedPairs(ps), '&', '\r');
  }

  lemma FormDecodeCommaChar(c: char, rest: string)
    requires IsAscii(c)
    ensures FormDecode(CommaEncodeChar(c) + rest) == [c] + FormDecode(rest)
  {
    if c == ',' || c == ' ' || IsFormSafe(c) {
      assert (CommaEncodeChar(c) + rest)[1..] == rest;
    } else {
      var b := c as int;
      assert Utf8(c) == [b];
      assert Escape([b]) == ['%', HexChar(b / 16), HexChar(b % 16)] + Escape([]);
      var x := CommaEncodeChar(c) + rest;
      assert x[3..] == rest;
      assert EscapedByte(x) == Some(b);
    }
  }

  lemma {:induction false} FormDecodeCommaEncoded(s: string, rest: string)
    requires AllAscii(s)
    ensures FormDecode(CommaEncode(s) + rest) == s + FormDecode(rest)
    decreases |s|
  {
    if s != [] {
      var tail := CommaEncode(s[1..]) + rest;
      FormDecodeCommaEncoded(s[1..], rest);
      assert CommaEncode(s) + rest == CommaEncodeChar(s[0]) + tail;
      FormDecodeCommaChar(s[0], tail);
      assert FormDecode(CommaEncode(s) + rest) == [s[0]] + (s[1..] + FormDecode(rest));
      ConsAppend(s, FormDecode(rest));
    } else {
      assert CommaEncode(s) + rest == rest;
      assert s + FormDecode(rest) == FormDecode(rest);
    }
  }

  lemma FormDecodeCommaEncodedAll(s: string)
    requires AllAscii(s)
    ensures FormDecode(CommaEncode(s)) == s
  {
    FormDecodeCommaEncoded(s, "");
    assert CommaEncode(s) + "" == CommaEncode(s);
    assert s + FormDecode("") == s;
  }

  lemma {:induction false} ParseSequencesCommaPairs(ps: Params)
    requires AsciiParams(ps)
    ensures |CommaPairs(ps)| == |ps|
    ensures forall i :: 0 <= i < |ps| ==> '&' !in CommaPairs(ps)[i]
    ensures ParseSequences(CommaPairs(ps)) == ps
    decreases |ps|
  {
    if ps != [] {
      var xs := CommaPairs(ps);
      var k, v := ps[0].0, ps[0].1;
      assert xs[0] == CommaEncode(k) + "=" + CommaEncode(v) && xs[0] != "";
      assert xs[1..] == CommaPairs(ps[1..]);
      SplitAtEqualsPair(CommaEncode(k), CommaEncode(v));
      FormDecodeCommaEncodedAll(k);
      FormDecodeCommaEncodedAll(v);
      ParseSequencesCommaPairs(ps[1..]);
      assert [ps[0]] + ps[1..] == ps;
    }
  }

  /** The settings dialog's query text parses back to exactly the pairs it serialized. */
  lemma ParseCommaSerialized(ps: Params)
    requires AsciiParams(ps)
    ensures ParseQuery(CommaSerialize(ps)) == ps
  {
    var xs := CommaPairs(ps);
    ParseSequencesCommaPairs(ps);
    if ps == [] {
      assert ParseQuery(CommaSerialize(ps)) == ParseSequences([""]);
    } else {
      SplitJoin(xs, '&');
    }
  }

  // ---------------------------------------------------------------------------
  // Targets through the URL parser
  // ---------------------------------------------------------------------------

  /** A pathname as the router reports it: no `?`, no `#`, no control character or space. */
  predicate UrlPath(p: string) { '?' !in p && '#' !in p && NoBlank(p) }

  /** A query that ends in neither a control character nor a space. */
  predicate NoTrailingBlank(q: string) { q == [] || !IsC0OrSpace(q[|q| - 1]) }

  /** A query the URL parser leaves exactly as it is. */
  predicate KeptQuery(q: string)
  {
    '#' !in q && '\t' !in q && '\n' !in q && '\r' !in q && NoTrailingBlank(q)
  }

  /** Text without controls, spaces or fragment marks is kept as it is. */
  lemma BlankFreeKept(q: string)
    requires '#' !in q && NoBlank(q)
    ensures KeptQuery(q)
  {
    forall c | c in q
      ensures !IsTabOrNewline(c)
    {
      var i :| 0 <= i < |q| && q[i] == c;
    }
  }

  /** Trimming the end of `a + b` when `a` ends in a visible character touches only `b`. */
  lemma {:induction false} TrimBlankEndAppend(a: string, b: string)
    requires a != [] && !IsC0OrSpace(a[|a| - 1])
    ensures TrimBlankEnd(a + b) == a + TrimBlankEnd(b)
    decreases |b|
  {
    if b == [] {
      assert a + b == a;
    } else if IsC0OrSpace(b[|b| - 1]) {
      assert (a + b)[..|a + b| - 1] == a + b[..|b| - 1];
      TrimBlankEndAppend(a, b[..|b| - 1]);
    } else {
      assert (a + b)[|a + b| - 1] == b[|b| - 1];
    }
  }

  /** Removing tabs and newlines works piece by piece. */
  lemma {:induction false} RemoveTabsAppend(a: string, b: string)
    ensures RemoveTabsAndNewlines(a + b) == RemoveTabsAndNewlines(a) + RemoveTabsAndNewlines(b)
    decreases |a|
  {
    if a == [] {
      assert a + b == b;
    } else {
      assert (a + b)[0] == a[0] && (a + b)[1..] == a[1..] + b;
      RemoveTabsAppend(a[1..], b);
      if !IsTabOrNewline(a[0]) {
        Regroup3([a[0]], RemoveTabsAndNewlines(a[1..]), RemoveTabsAndNewlines(b));
      }
    }
  }

  /** Text without tabs and newlines loses nothing. */
  lemma {:induction false} RemoveTabsNone(s: string)
    requires '\t' !in s && '\n' !in s && '\r' !in s
    ensures RemoveTabsAndNewlines(s) == s
    decreases |s|
  {
    if s != [] {
      RemoveTabsNone(s[1..]);
      assert [s[0]] + s[1..] == s;
    }
  }

  /** The query part of `p?rest` is `rest` up to its first `#`. */
  lemma {:induction false} QueryPartAfter(p: string, rest: string)
    requires '?' !in p && '#' !in p
    ensures QueryPart(p + "?" + rest) == BeforeHash(rest)
    decreases |p|
  {
    if p == [] {
      assert p + "?" + rest == "?" + rest;
      assert ("?" + rest)[1..] == rest;
    } else {
      assert (p + "?" + rest)[1..] == p[1..] + "?" + rest;
      QueryPartAfter(p[1..], rest);
    }
  }

  /** A pathname alone has no query. */
  lemma {:induction false} QueryPartNone(p: string)
    requires '?' !in p
    ensures QueryPart(p) == ""
    decreases |p|
  {
    if p != [] {
      QueryPartNone(p[1..]);
    }
  }

  /**
   * What the page reads as the query of `pathname?query`: the query with its
   * trailing controls and spaces trimmed, its tabs and newlines removed, and
   * cut at its first `#`.
   */
  lemma QueryOfTargetStripped(pathname: string, query: string)
    requires UrlPath(pathname)
    ensures QueryOf(Target(pathname, query)) == BeforeHash(RemoveTabsAndNewlines(TrimBlankEnd(query)))
  {
    var t := Target(pathname, query);
    assert '\t' !in pathname && '\n' !in pathname && '\r' !in pathname;
    if query == "" {
      assert TrimBlankStart(t) == t && TrimBlankEnd(t) == t;
      RemoveTabsNone(pathname);
      QueryPartNone(pathname);
    } else {
      var head := pathname + "?";
      Regroup3(pathname, "?", query);
      assert t == head + query && head[|head| - 1] == '?';
      assert TrimBlankStart(t) == t;
      TrimBlankEndAppend(head, query);
      RemoveTabsAppend(head, TrimBlankEnd(query));
      RemoveTabsNone(head);
      QueryPartAfter(pathname, RemoveTabsAndNewlines(TrimBlankEnd(query)));
    }
  }

  /** A target's query the URL parser keeps as it is reads back as the query it was built from. */
  lemma QueryOfTarget(pathname: string, query: string)
    requires UrlPath(pathname) && KeptQuery(query)
    ensures QueryOf(Target(pathname, query)) == query
  {
    QueryOfTargetStripped(pathname, query);
    assert TrimBlankEnd(query) == query;
    RemoveTabsNone(query);
  }

  /** A control character or space at the end of a target's query is lost on the way through the address bar. */
  lemma TrailingBlankLost(pathname: string, query: string, c: char)
    requires UrlPath(pathname) && IsC0OrSpace(c)
    ensures QueryOf(Target(pathname, query + [c])) == QueryOf(Target(pathname, query))
  {
    QueryOfTargetStripped(pathname, query + [c]);
    QueryOfTargetStripped(pathname, query);
    assert (query + [c])[..|query|] == query;
  }

  /** A tab or newline inside a target's query is lost on the way through the address bar. */
  lemma TabOrNewlineLost(pathname: string, a: string, c: char, b: string)
    requires UrlPath(pathname) && IsTabOrNewline(c)
    requires b != [] && !IsC0OrSpace(b[|b| - 1])
    ensures QueryOf(Target(pathname, a + [c] + b)) == QueryOf(Target(pathname, a + b))
  {
    QueryOfTargetStripped(pathname, a + [c] + b);
    QueryOfTargetStripped(pathname, a + b);
    assert (a + [c] + b)[|a + [c] + b| - 1] == b[|b| - 1];
    assert (a + b)[|a + b| - 1] == b[|b| - 1];
    RemoveTabsAppend(a + [c], b);
    RemoveTabsAppend(a, [c]);
    RemoveTabsAppend(a, b);
    assert RemoveTabsAndNewlines([c]) == "";
    assert RemoveTabsAndNewlines(a) + "" == RemoveTabsAndNewlines(a);
  }
}
