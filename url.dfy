/** The URL encodings the pages rely on: `URLSearchParams`' serialisation
    (application/x-www-form-urlencoded) and `encodeURIComponent`, with the
    percent-decoding that reads them back, as bytes. Both encode a character
    outside their safe set as the `%XX` escapes of its UTF-8 bytes. */
module Url {
  import opened Strings

  // ---------------------------------------------------------------------
  // Bytes and escapes

  /** The UTF-8 encoding of one character. */
  function Utf8(c: char): (bytes: seq<nat>)
    ensures 1 <= |bytes| <= 4
    ensures forall i :: 0 <= i < |bytes| ==> bytes[i] < 256
    ensures c as int < 128 ==> bytes == [c as int]
    ensures c as int >= 128 ==> forall i :: 0 <= i < |bytes| ==> bytes[i] >= 128
  {
    var n := c as int;
    if n < 0x80 then [n]
    else if n < 0x800 then [0xC0 + n / 0x40, 0x80 + n % 0x40]
    else if n < 0x10000 then [0xE0 + n / 0x1000, 0x80 + (n / 0x40) % 0x40, 0x80 + n % 0x40]
    else [0xF0 + n / 0x40000, 0x80 + (n / 0x1000) % 0x40, 0x80 + (n / 0x40) % 0x40, 0x80 + n % 0x40]
  }

  /** The UTF-8 encoding of a string. */
  function Utf8Of(s: string): seq<nat> {
    if s == [] then [] else Utf8(s[0]) + Utf8Of(s[1..])
  }

  /** The upper-case hex digit of a value below 16. */
  function HexDigit(d: nat): (c: char)
    requires d < 16
    ensures IsHex(c) && HexValue(c) == d
  {
    if d < 10 then (('0' as int) + d) as char else (('A' as int) + d - 10) as char
  }

  predicate IsHex(c: char) {
    '0' <= c <= '9' || 'A' <= c <= 'F' || 'a' <= c <= 'f'
  }

  function HexValue(c: char): (v: nat)
    requires IsHex(c)
    ensures v < 16
  {
    if '0' <= c <= '9' then (c as int) - ('0' as int)
    else if 'A' <= c <= 'F' then (c as int) - ('A' as int) + 10
    else (c as int) - ('a' as int) + 10
  }

  /** `%XX` with upper-case hex digits. */
  function PercentByte(b: nat): (escape: string)
    requires b < 256
    ensures |escape| == 3 && escape[0] == '%' && IsHex(escape[1]) && IsHex(escape[2])
    ensures HexValue(escape[1]) * 16 + HexValue(escape[2]) == b
  {
    ['%', HexDigit(b / 16), HexDigit(b % 16)]
  }

  function PercentBytes(bytes: seq<nat>): (escapes: string)
    requires forall i :: 0 <= i < |bytes| ==> bytes[i] < 256
    ensures |escapes| == 3 * |bytes|
  {
    if bytes == [] then [] else PercentByte(bytes[0]) + PercentBytes(bytes[1..])
  }

  // ---------------------------------------------------------------------
  // The two encoders

  /** The characters `URLSearchParams` writes as they are. */
  predicate FormSafe(c: char) {
    'A' <= c <= 'Z' || 'a' <= c <= 'z' || '0' <= c <= '9' || c == '*' || c == '-' || c == '.' || c == '_'
  }

  function FormEncodeChar(c: char): string {
    if FormSafe(c) then [c] else if c == ' ' then "+" else PercentBytes(Utf8(c))
  }

  /** How `URLSearchParams.toString()` writes a name or a value. */
  function FormEncode(s: string): string {
    if s == [] then [] else FormEncodeChar(s[0]) + FormEncode(s[1..])
  }

  /** A string of characters `URLSearchParams` leaves alone is written as
      it is. */
  predicate AllFormSafe(s: string) {
    forall i :: 0 <= i < |s| ==> FormSafe(s[i])
  }

  lemma {:induction false} FormEncodeOfSafe(s: string)
    requires AllFormSafe(s)
    ensures FormEncode(s) == s
  {
    if s != [] {
      FormEncodeOfSafe(s[1..]);
      assert [s[0]] + s[1..] == s;
    }
  }

  /** The characters `encodeURIComponent` leaves as they are. */
  predicate UriSafe(c: char) {
    'A' <= c <= 'Z' || 'a' <= c <= 'z' || '0' <= c <= '9'
    || c == '-' || c == '_' || c == '.' || c == '!' || c == '~' || c == '*' || c == '\'' || c == '(' || c == ')'
  }

  function UriEncodeChar(c: char): string {
    if UriSafe(c) then [c] else PercentBytes(Utf8(c))
  }

  /** `encodeURIComponent` */
  function UriEncode(s: string): string {
    if s == [] then [] else UriEncodeChar(s[0]) + UriEncode(s[1..])
  }

  // ---------------------------------------------------------------------
  // Decoding

  /** Percent-decoding to bytes, with `+` read as a space when
      `plusIsSpace`; a `%` not followed by two hex digits stands for
      itself. */
  function DecodeBytes(s: string, plusIsSpace: bool): seq<nat>
    decreases |s|
  {
    if s == [] then []
    else if s[0] == '%' && |s| >= 3 && IsHex(s[1]) && IsHex(s[2]) then
      [HexValue(s[1]) * 16 + HexValue(s[2])] + DecodeBytes(s[3..], plusIsSpace)
    else if s[0] == '+' && plusIsSpace then [0x20] + DecodeBytes(s[1..], plusIsSpace)
    else Utf8(s[0]) + DecodeBytes(s[1..], plusIsSpace)
  }

  /** One escape reads back as its byte. */
  lemma PercentByteDecodes(b: nat, rest: string, plusIsSpace: bool)
    requires b < 256
    ensures DecodeBytes(PercentByte(b) + rest, plusIsSpace) == [b] + DecodeBytes(rest, plusIsSpace)
  {
    var escape := PercentByte(b);
    var text := escape + rest;
    assert text[0] == '%' && text[1] == escape[1] && text[2] == escape[2];
    assert text[3..] == rest;
  }

  lemma {:induction false} PercentBytesDecode(bytes: seq<nat>, rest: string, plusIsSpace: bool)
    requires forall i :: 0 <= i < |bytes| ==> bytes[i] < 256
    ensures DecodeBytes(PercentBytes(bytes) + rest, plusIsSpace) == bytes + DecodeBytes(rest, plusIsSpace)
    decreases |bytes|
  {
    if bytes == [] {
      assert PercentBytes(bytes) + rest == rest;
    } else {
      var tail := PercentBytes(bytes[1..]) + rest;
      calc {
        DecodeBytes(PercentBytes(bytes) + rest, plusIsSpace);
        { assert PercentBytes(bytes) + rest == PercentByte(bytes[0]) + tail; }
        DecodeBytes(PercentByte(bytes[0]) + tail, plusIsSpace);
        { PercentByteDecodes(bytes[0], tail, plusIsSpace); }
        [bytes[0]] + DecodeBytes(tail, plusIsSpace);
        { PercentBytesDecode(bytes[1..], rest, plusIsSpace); }
        [bytes[0]] + (bytes[1..] + DecodeBytes(rest, plusIsSpace));
        { assert bytes == [bytes[0]] + bytes[1..]; }
        bytes + DecodeBytes(rest, plusIsSpace);
      }
    }
  }

  /** A character written by `URLSearchParams` reads back as its bytes. */
  lemma FormEncodeCharDecodes(c: char, rest: string)
    ensures DecodeBytes(FormEncodeChar(c) + rest, true) == Utf8(c) + DecodeBytes(rest, true)
  {
    if FormSafe(c) {
      assert (FormEncodeChar(c) + rest)[1..] == rest;
    } else if c == ' ' {
      assert (FormEncodeChar(c) + rest)[1..] == rest;
    } else {
      PercentBytesDecode(Utf8(c), rest, true);
    }
  }

  /** A character written by `encodeURIComponent` reads back as its bytes,
      whichever way `+` is read. */
  lemma UriEncodeCharDecodes(c: char, rest: string, plusIsSpace: bool)
    ensures DecodeBytes(UriEncodeChar(c) + rest, plusIsSpace) == Utf8(c) + DecodeBytes(rest, plusIsSpace)
  {
    if UriSafe(c) {
      assert (UriEncodeChar(c) + rest)[1..] == rest;
    } else {
      PercentBytesDecode(Utf8(c), rest, plusIsSpace);
    }
  }

  /** Decoding what `URLSearchParams` wrote gives the UTF-8 bytes of the
      original text. */
  lemma {:induction false} FormEncodeRoundTrip(s: string)
    ensures DecodeBytes(FormEncode(s), true) == Utf8Of(s)
    decreases |s|
  {
    if s != [] {
      FormEncodeCharDecodes(s[0], FormEncode(s[1..]));
      FormEncodeRoundTrip(s[1..]);
    }
  }

  /** Decoding what `encodeURIComponent` wrote gives the UTF-8 bytes of the
      original text. */
  lemma {:induction false} UriEncodeRoundTrip(s: string, plusIsSpace: bool)
    ensures DecodeBytes(UriEncode(s), plusIsSpace) == Utf8Of(s)
    decreases |s|
  {
    if s != [] {
      UriEncodeCharDecodes(s[0], UriEncode(s[1..]), plusIsSpace);
      UriEncodeRoundTrip(s[1..], plusIsSpace);
    }
  }

  // ---------------------------------------------------------------------
  // Query strings

  /** Neither encoder writes a character that delimits query parameters. */
  predicate NoDelimiter(s: string) {
    '&' !in s && '=' !in s && '#' !in s
  }

  lemma PercentBytesHaveNoDelimiter(bytes: seq<nat>)
    requires forall i :: 0 <= i < |bytes| ==> bytes[i] < 256
    ensures forall i :: 0 <= i < |PercentBytes(bytes)| ==> PercentBytes(bytes)[i] == '%' || IsHex(PercentBytes(bytes)[i])
  {
    if bytes != [] {
      PercentBytesHaveNoDelimiter(bytes[1..]);
      var escapes := PercentBytes(bytes);
      forall i | 0 <= i < |escapes| ensures escapes[i] == '%' || IsHex(escapes[i]) {
        if i >= 3 {
          assert escapes[i] == PercentBytes(bytes[1..])[i - 3];
        }
      }
    }
  }

  lemma {:induction false} FormEncodeHasNoDelimiter(s: string)
    ensures NoDelimiter(FormEncode(s))
    decreases |s|
  {
    if s != [] {
      FormEncodeHasNoDelimiter(s[1..]);
      if !FormSafe(s[0]) && s[0] != ' ' {
        PercentBytesHaveNoDelimiter(Utf8(s[0]));
      }
    }
  }

  lemma {:induction false} UriEncodeHasNoDelimiter(s: string)
    ensures NoDelimiter(UriEncode(s))
    decreases |s|
  {
    if s != [] {
      UriEncodeHasNoDelimiter(s[1..]);
      if !UriSafe(s[0]) {
        PercentBytesHaveNoDelimiter(Utf8(s[0]));
      }
    }
  }

  /** `new URLSearchParams(...)` after `set`s: its pairs in order. */
  datatype Param = Param(name: string, value: string)

  function ParamText(p: Param): string {
    FormEncode(p.name) + "=" + FormEncode(p.value)
  }

  function ParamTexts(params: seq<Param>): (texts: seq<string>)
    ensures |texts| == |params|
    ensures forall i :: 0 <= i < |params| ==> texts[i] == ParamText(params[i])
  {
    seq(|params|, i requires 0 <= i < |params| => ParamText(params[i]))
  }

  /** `params.toString()` */
  function QueryString(params: seq<Param>): string {
    Join(ParamTexts(params), "&")
  }

  /** A query parameter as read back: name and value as bytes. */
  datatype RawParam = RawParam(name: seq<nat>, value: seq<nat>)

  /** Reading one `name=value` piece: split at the first `=`. */
  function ReadParam(piece: string): RawParam {
    var name := Split(piece, '=')[0];
    var value := if |name| < |piece| then piece[|name| + 1..] else "";
    RawParam(DecodeBytes(name, true), DecodeBytes(value, true))
  }

  /** Reading a query string: its `&`-separated pieces, each read as a
      parameter. */
  function ReadQuery(query: string): (params: seq<RawParam>) {
    var pieces := Split(query, '&');
    seq(|pieces|, i requires 0 <= i < |pieces| => ReadParam(pieces[i]))
  }

  lemma ReadParamText(p: Param)
    ensures ReadParam(ParamText(p)) == RawParam(Utf8Of(p.name), Utf8Of(p.value))
  {
    var name := FormEncode(p.name);
    var value := FormEncode(p.value);
    FormEncodeHasNoDelimiter(p.name);
    FormEncodeHasNoDelimiter(p.value);
    SplitAtFirstSeparator(name, value, '=');
    assert ParamText(p) == name + ['='] + value;
    assert ParamText(p)[|name| + 1..] == value;
    FormEncodeRoundTrip(p.name);
    FormEncodeRoundTrip(p.value);
  }

  /** The parameters as bytes. */
  function Raw(params: seq<Param>): (raw: seq<RawParam>)
    ensures |raw| == |params|
    ensures forall i :: 0 <= i < |params| ==> raw[i] == RawParam(Utf8Of(params[i].name), Utf8Of(params[i].value))
  {
    seq(|params|, i requires 0 <= i < |params| => RawParam(Utf8Of(params[i].name), Utf8Of(params[i].value)))
  }

  /** Parameters whose names and values need no encoding are written as
      they are. */
  lemma QueryStringOfSafePair(name1: string, value1: string, name2: string, value2: string)
    requires AllFormSafe(name1) && AllFormSafe(value1) && AllFormSafe(name2) && AllFormSafe(value2)
    ensures QueryString([Param(name1, value1), Param(name2, value2)]) == name1 + "=" + value1 + "&" + name2 + "=" + value2
  {
    FormEncodeOfSafe(name1);
    FormEncodeOfSafe(value1);
    FormEncodeOfSafe(name2);
    FormEncodeOfSafe(value2);
    var first := name1 + "=" + value1;
    var second := name2 + "=" + value2;
    assert ParamTexts([Param(name1, value1), Param(name2, value2)]) == [first, second];
    assert Join([first, second], "&") == first + "&" + Join([second], "&");
    assert first + "&" + second == name1 + "=" + value1 + "&" + name2 + "=" + value2;
  }

  lemma QueryStringOfSafeParam(name: string, value: string)
    requires AllFormSafe(name) && AllFormSafe(value)
    ensures QueryString([Param(name, value)]) == name + "=" + value
  {
    FormEncodeOfSafe(name);
    FormEncodeOfSafe(value);
    assert ParamTexts([Param(name, value)]) == [name + "=" + value];
  }

  /** One parameter whose value `encodeURIComponent` wrote reads back as
      that value. */
  lemma ReadQueryOfUriParam(name: string, value: string)
    requires NoDelimiter(name)
    ensures var read := ReadQuery(name + "=" + UriEncode(value));
      |read| == 1 && read[0].value == Utf8Of(value)
  {
    var encoded := UriEncode(value);
    var piece := name + "=" + encoded;
    UriEncodeHasNoDelimiter(value);
    assert '&' !in piece;
    SplitWithoutSeparator(piece, '&');
    SplitAtFirstSeparator(name, encoded, '=');
    assert piece == name + ['='] + encoded;
    assert piece[|name| + 1..] == encoded;
    UriEncodeRoundTrip(value, true);
  }

  /** A non-empty parameter list written by `toString()` reads back as the
      same names and values, in the same order. */
  lemma ReadQueryString(params: seq<Param>)
    requires params != []
    ensures ReadQuery(QueryString(params)) == Raw(params)
  {
    var texts := ParamTexts(params);
    forall t | t in texts ensures '&' !in t {
      var i :| 0 <= i < |texts| && texts[i] == t;
      FormEncodeHasNoDelimiter(params[i].name);
      FormEncodeHasNoDelimiter(params[i].value);
      assert t == FormEncode(params[i].name) + "=" + FormEncode(params[i].value);
    }
    SplitOfJoin(texts, '&');
    forall i | 0 <= i < |params|
      ensures ReadQuery(QueryString(params))[i] == Raw(params)[i]
    {
      ReadParamText(params[i]);
    }
  }
}
