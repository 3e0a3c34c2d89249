/** The parts of JavaScript's string methods that the system relies on
    (`toUpperCase`, `trim`, `split`, `join`, `includes`, `startsWith`), and
    decimal text for integers, all restricted to ASCII. */
module Strings {

  /** The ASCII characters that `String.prototype.trim` removes. */
  predicate IsSpace(c: char) {
    c == ' ' || c == '\t' || c == '\n' || c == '\r' || c == '\U{B}' || c == '\U{C}'
  }

  function UpperChar(c: char): (u: char)
    ensures IsSpace(u) <==> IsSpace(c)
    ensures 'a' <= c <= 'z' ==> 'A' <= u <= 'Z'
    ensures !('a' <= c <= 'z') ==> u == c
  {
    if 'a' <= c <= 'z' then (c as int - 32) as char else c
  }

  /** `s.toUpperCase()` on ASCII text. */
  function Upper(s: string): (r: string)
    ensures |r| == |s|
    ensures forall i :: 0 <= i < |s| ==> r[i] == UpperChar(s[i])
  {
    if s == [] then [] else [UpperChar(s[0])] + Upper(s[1..])
  }

  predicate IsUpper(s: string) {
    forall i :: 0 <= i < |s| ==> !('a' <= s[i] <= 'z')
  }

  lemma UpperIsUpper(s: string)
    ensures IsUpper(Upper(s))
  {
  }

  lemma UpperOfUpper(s: string)
    requires IsUpper(s)
    ensures Upper(s) == s
  {
  }

  /** The number of white-space characters `s` starts with. */
  function LeadingSpace(s: string): (k: nat)
    ensures k <= |s|
    ensures forall i :: 0 <= i < k ==> IsSpace(s[i])
    ensures k < |s| ==> !IsSpace(s[k])
  {
    if s != [] && IsSpace(s[0]) then 1 + LeadingSpace(s[1..]) else 0
  }

  /** The length of `s` without the white space it ends with. */
  function TextEnd(s: string): (k: nat)
    ensures k <= |s|
    ensures forall i :: k <= i < |s| ==> IsSpace(s[i])
    ensures 0 < k ==> !IsSpace(s[k - 1])
  {
    if s != [] && IsSpace(s[|s| - 1]) then TextEnd(s[..|s| - 1]) else |s|
  }

  /** `s.trimStart()` */
  function TrimStart(s: string): (r: string) {
    s[LeadingSpace(s)..]
  }

  /** `s.trimEnd()` */
  function TrimEnd(s: string): (r: string) {
    s[..TextEnd(s)]
  }

  /** A string `trim` leaves unchanged: no white space at either end. */
  predicate IsTrimmed(s: string) {
    s == [] || (!IsSpace(s[0]) && !IsSpace(s[|s| - 1]))
  }

  /** `s.trim()`: the longest infix of `s` without white space at either end,
      obtained by removing only white space. */
  function Trim(s: string): (r: string)
    ensures IsTrimmed(r)
    ensures |r| <= |s|
  {
    TrimEnd(TrimStart(s))
  }

  lemma TrimmedIsFixed(s: string)
    requires IsTrimmed(s)
    ensures Trim(s) == s
  {
  }

  /** `trim` is idempotent. */
  lemma TrimTwice(s: string)
    ensures Trim(Trim(s)) == Trim(s)
  {
    TrimmedIsFixed(Trim(s));
  }

  /** A leading blank makes no difference to `trim`. */
  lemma TrimAfterBlank(s: string)
    ensures Trim([' '] + s) == Trim(s)
  {
    assert ([' '] + s)[1..] == s;
  }

  /** `trim` of upper-case text is upper-case. */
  lemma TrimKeepsUpper(s: string)
    requires IsUpper(s)
    ensures IsUpper(Trim(s))
  {
    var k := LeadingSpace(s);
    assert Trim(s) == s[k..k + TextEnd(s[k..])];
    UpperInfix(s, k, k + TextEnd(s[k..]));
  }

  lemma UpperInfix(s: string, from: nat, to: nat)
    requires IsUpper(s) && from <= to <= |s|
    ensures IsUpper(s[from..to])
  {
    forall i | 0 <= i < to - from ensures !('a' <= s[from..to][i] <= 'z') {
      assert s[from..to][i] == s[from + i];
    }
  }

  /** `s.toUpperCase().trim()`, the normal form of an invite code everywhere
      in the system. */
  function UpperTrim(s: string): (r: string)
    ensures IsUpper(r) && IsTrimmed(r)
  {
    UpperIsUpper(s);
    TrimKeepsUpper(Upper(s));
    Trim(Upper(s))
  }

  /** Normalising twice is normalising once. */
  lemma UpperTrimTwice(s: string)
    ensures UpperTrim(UpperTrim(s)) == UpperTrim(s)
  {
    var r := UpperTrim(s);
    UpperOfUpper(r);
    TrimmedIsFixed(r);
  }

  /** `s.split(sep)` for a one-character separator: the pieces between
      separators, always at least one. */
  function Split(s: string, sep: char): (parts: seq<string>)
    ensures |parts| >= 1
    ensures forall p :: p in parts ==> sep !in p
  {
    if s == [] then [""]
    else
      var rest := Split(s[1..], sep);
      if s[0] == sep then [""] + rest else [[s[0]] + rest[0]] + rest[1..]
  }

  /** The first piece of a split is the text before the first separator,
      or all of it when there is none. */
  lemma {:induction false} SplitFirstPiece(s: string, sep: char)
    ensures var first := Split(s, sep)[0];
      && |first| <= |s| && first == s[..|first|] && sep !in first
      && (|first| < |s| ==> s[|first|] == sep)
  {
    if s != [] {
      SplitFirstPiece(s[1..], sep);
    }
  }

  /** `parts.join(sep)` */
  function Join(parts: seq<string>, sep: string): string {
    if |parts| == 0 then ""
    else if |parts| == 1 then parts[0]
    else parts[0] + sep + Join(parts[1..], sep)
  }

  lemma {:induction false} SplitWithoutSeparator(s: string, sep: char)
    requires sep !in s
    ensures Split(s, sep) == [s]
  {
    if s != [] {
      SplitWithoutSeparator(s[1..], sep);
      assert [s[0]] + s[1..] == s;
    }
  }

  lemma {:induction false} SplitAtFirstSeparator(a: string, b: string, sep: char)
    requires sep !in a
    ensures Split(a + [sep] + b, sep) == [a] + Split(b, sep)
  {
    if a == [] {
      assert (a + [sep] + b)[1..] == b;
    } else {
      SplitAtFirstSeparator(a[1..], b, sep);
      assert (a + [sep] + b)[1..] == a[1..] + [sep] + b;
      assert [a[0]] + a[1..] == a;
    }
  }

  /** Splitting a join on the same separator gives the pieces back, when no
      piece contains the separator. */
  lemma {:induction false} SplitOfJoin(parts: seq<string>, sep: char)
    requires |parts| >= 1
    requires forall p :: p in parts ==> sep !in p
    ensures Split(Join(parts, [sep]), sep) == parts
  {
    if |parts| == 1 {
      SplitWithoutSeparator(parts[0], sep);
    } else {
      SplitOfJoin(parts[1..], sep);
      SplitAtFirstSeparator(parts[0], Join(parts[1..], [sep]), sep);
      assert parts == [parts[0]] + parts[1..];
    }
  }

  /** Every piece but the first, with `pad` in front. */
  function PadTail(parts: seq<string>, pad: string): (r: seq<string>)
    requires |parts| >= 1
    ensures |r| == |parts| - 1
    ensures forall i :: 0 <= i < |r| ==> r[i] == pad + parts[i + 1]
  {
    seq(|parts| - 1, i requires 0 <= i < |parts| - 1 => pad + parts[i + 1])
  }

  /** Splitting a join whose separator is `sep` followed by `pad` on `sep`
      alone: the first piece comes back (after `prefix`), every later one with
      `pad` in front. */
  lemma {:induction false} SplitOfPaddedJoin(prefix: string, parts: seq<string>, sep: char, pad: string)
    requires |parts| >= 1
    requires sep !in prefix && sep !in pad
    requires forall p :: p in parts ==> sep !in p
    ensures Split(prefix + Join(parts, [sep] + pad), sep)
         == [prefix + parts[0]] + PadTail(parts, pad)
    decreases |parts|
  {
    if |parts| == 1 {
      SplitWithoutSeparator(prefix + parts[0], sep);
    } else {
      var tail := Join(parts[1..], [sep] + pad);
      assert prefix + Join(parts, [sep] + pad) == (prefix + parts[0]) + [sep] + (pad + tail);
      SplitAtFirstSeparator(prefix + parts[0], pad + tail, sep);
      SplitOfPaddedJoin(pad, parts[1..], sep, pad);
      assert [pad + parts[1]] + PadTail(parts[1..], pad) == PadTail(parts, pad);
    }
  }

  predicate StartsWith(s: string, prefix: string) {
    |prefix| <= |s| && s[..|prefix|] == prefix
  }

  /** `s.includes(sub)` */
  predicate Contains(s: string, sub: string)
    decreases |s|
  {
    StartsWith(s, sub) || (s != [] && Contains(s[1..], sub))
  }

  lemma ContainsAt(s: string, sub: string, i: nat)
    requires i + |sub| <= |s| && s[i..i + |sub|] == sub
    ensures Contains(s, sub)
  {
    if i > 0 {
      ContainsAt(s[1..], sub, i - 1);
    }
  }

  lemma ContainsWhere(s: string, sub: string) returns (i: nat)
    requires Contains(s, sub)
    ensures i + |sub| <= |s| && s[i..i + |sub|] == sub
  {
    if StartsWith(s, sub) {
      i := 0;
    } else {
      var j := ContainsWhere(s[1..], sub);
      i := j + 1;
      assert s[i..i + |sub|] == s[1..][j..j + |sub|];
    }
  }

  predicate IsDigit(c: char) {
    '0' <= c <= '9'
  }

  predicate AllDigits(s: string) {
    forall i :: 0 <= i < |s| ==> IsDigit(s[i])
  }

  function DigitValue(c: char): nat
    requires IsDigit(c)
  {
    c as int - '0' as int
  }

  function DigitChar(d: nat): (c: char)
    requires d < 10
    ensures IsDigit(c) && DigitValue(c) == d
  {
    ('0' as int + d) as char
  }

  /** The value of a run of decimal digits, most significant first. */
  function DigitsValue(ds: string): nat
    requires AllDigits(ds)
  {
    if ds == [] then 0 else DigitsValue(ds[..|ds| - 1]) * 10 + DigitValue(ds[|ds| - 1])
  }

  /** Decimal text of a natural number, without leading zeros. */
  function NatToString(n: nat): (r: string)
    ensures r != [] && AllDigits(r)
  {
    if n < 10 then [DigitChar(n)] else NatToString(n / 10) + [DigitChar(n % 10)]
  }

  /** `String(n)` for an integer. */
  function IntToString(n: int): string {
    if n < 0 then "-" + NatToString(-n) else NatToString(n)
  }

  lemma {:induction false} NatToStringValue(n: nat)
    ensures DigitsValue(NatToString(n)) == n
  {
    if n >= 10 {
      NatToStringValue(n / 10);
      var s := NatToString(n);
      assert s[..|s| - 1] == NatToString(n / 10);
    }
  }

  /** Text that starts with neither white space, a sign nor a digit holds no
      leading digits. */
  lemma NoDigitRunAfterLetter(s: string)
    requires s != [] && 'a' <= s[0] <= 'z'
    ensures DigitRun(s) == 0 && LeadingSpace(s) == 0
  {
  }

  /** The length of the run of decimal digits at the start of `s`. */
  function DigitRun(s: string): (k: nat)
    ensures k <= |s| && AllDigits(s[..k])
    ensures k < |s| ==> !IsDigit(s[k])
  {
    if s != [] && IsDigit(s[0]) then
      var k := 1 + DigitRun(s[1..]);
      assert s[..k] == [s[0]] + s[1..][..k - 1];
      k
    else 0
  }
}
