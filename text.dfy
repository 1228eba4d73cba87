/**
 * String helpers with the JavaScript meaning the sources rely on:
 * character classes (`\d`, `\s`), ASCII case mapping, `includes`,
 * `split`/`join` on one character, `trim`, `padStart`/`padEnd`,
 * decimal formatting and `parseInt`/`parseFloat` as scanners.
 */
module Text {
  import opened Wrappers

  /** `\d` in a JavaScript regular expression: ASCII digits only. */
  predicate IsDigit(c: char) { '0' <= c <= '9' }

  /** `\s` in a JavaScript regular expression (also what `trim` strips). */
  predicate IsSpace(c: char) {
    ('\t' <= c <= '\r') || c == ' ' || c == '\U{00A0}' || c == '\U{1680}'
    || ('\U{2000}' <= c <= '\U{200A}') || c == '\U{2028}' || c == '\U{2029}'
    || c == '\U{202F}' || c == '\U{205F}' || c == '\U{3000}' || c == '\U{FEFF}'
  }

  predicate IsUpperAlnum(c: char) { ('A' <= c <= 'Z') || IsDigit(c) }

  predicate AllDigits(s: string) { forall i :: 0 <= i < |s| ==> IsDigit(s[i]) }

  function ToUpperChar(c: char): char {
    if 'a' <= c <= 'z' then (c as int - 32) as char else c
  }

  function ToLowerChar(c: char): char {
    if 'A' <= c <= 'Z' then (c as int + 32) as char else c
  }

  /** `toUpperCase`, restricted to the ASCII letters. */
  function ToUpper(s: string): (r: string)
    ensures |r| == |s|
    ensures forall i :: 0 <= i < |s| ==> r[i] == ToUpperChar(s[i])
  {
    seq(|s|, i requires 0 <= i < |s| => ToUpperChar(s[i]))
  }

  /** `toLowerCase`, restricted to the ASCII letters. */
  function ToLower(s: string): (r: string)
    ensures |r| == |s|
    ensures forall i :: 0 <= i < |s| ==> r[i] == ToLowerChar(s[i])
  {
    seq(|s|, i requires 0 <= i < |s| => ToLowerChar(s[i]))
  }

  predicate StartsWith(s: string, p: string) {
    |p| <= |s| && s[..|p|] == p
  }

  /** `t` occurs in `s` starting at index `i`. */
  predicate OccursAt(s: string, t: string, i: int) {
    0 <= i && i + |t| <= |s| && s[i..i + |t|] == t
  }

  /** The first occurrence of `t` in `s` at or after `i` (`indexOf`). */
  function IndexFrom(s: string, t: string, i: nat): (r: Option<nat>)
    requires i <= |s|
    ensures r.Some? ==> i <= r.value && OccursAt(s, t, r.value)
    ensures r.Some? ==> forall j :: i <= j < r.value ==> !OccursAt(s, t, j)
    ensures r.None? ==> forall j :: i <= j ==> !OccursAt(s, t, j)
    decreases |s| - i
  {
    if OccursAt(s, t, i) then Some(i)
    else if i == |s| then None
    else IndexFrom(s, t, i + 1)
  }

  function IndexOf(s: string, t: string): Option<nat> {
    IndexFrom(s, t, 0)
  }

  /** `s.includes(t)`. */
  predicate Includes(s: string, t: string) {
    IndexOf(s, t).Some?
  }

  lemma IncludesAt(s: string, t: string, i: int)
    requires OccursAt(s, t, i)
    ensures Includes(s, t)
  {
  }

  /** `t` does not occur where its first character is missing. */
  lemma HeadMismatch(s: string, t: string, j: int)
    requires |t| > 0 && 0 <= j < |s| && s[j] != t[0]
    ensures !OccursAt(s, t, j)
  {
    assert j + |t| <= |s| ==> s[j..j + |t|][0] == s[j];
  }

  /** An occurrence with none before it is the one `indexOf` finds. */
  lemma FirstOccurrence(s: string, t: string, i: int)
    requires OccursAt(s, t, i)
    requires forall j :: 0 <= j < i ==> !OccursAt(s, t, j)
    ensures IndexOf(s, t) == Some(i)
  {
  }

  /** `s` cannot include `t` when `t` holds a character `s` lacks. */
  lemma MissingCharExcludes(s: string, t: string, k: int)
    requires 0 <= k < |t| && t[k] !in s
    ensures !Includes(s, t)
  {
  }

  /** The text before the first occurrence of `t`, or all of `s`: `s.split(t)[0]`. */
  function Before(s: string, t: string): (r: string)
    ensures StartsWith(s, r)
  {
    match IndexOf(s, t)
    case Some(i) => s[..i]
    case None => s
  }

  /** Index of the first `c` in `s`. */
  function CharIndex(s: string, c: char): (r: Option<nat>)
    ensures r.Some? ==> r.value < |s| && s[r.value] == c && c !in s[..r.value]
    ensures r.None? ==> c !in s
  {
    if s == [] then None
    else if s[0] == c then Some(0)
    else match CharIndex(s[1..], c)
      case Some(i) => (assert s[1..][..i] == s[1..i + 1]; Some(i + 1))
      case None => None
  }

  /** A `c` with none before it is the one `CharIndex` finds. */
  lemma FirstCharAt(s: string, c: char, i: int)
    requires 0 <= i < |s| && s[i] == c && c !in s[..i]
    ensures CharIndex(s, c) == Some(i)
  {
    assert c in s;
    assert forall j :: 0 <= j < i ==> s[..i][j] == s[j];
  }

  function Join(parts: seq<string>, sep: char): string
    requires |parts| >= 1
  {
    if |parts| == 1 then parts[0] else parts[0] + [sep] + Join(parts[1..], sep)
  }

  /** Splitting a join of separator-free parts gives the parts back. */
  lemma {:induction false} SplitJoin(parts: seq<string>, sep: char)
    requires |parts| >= 1 && forall k :: 0 <= k < |parts| ==> sep !in parts[k]
    ensures Split(Join(parts, sep), sep) == parts
    decreases |parts|
  {
    if |parts| > 1 {
      var rest := Join(parts[1..], sep);
      var s := parts[0] + [sep] + rest;
      var i := |parts[0]|;
      assert s[..i] == parts[0] && s[i + 1..] == rest;
      FirstCharAt(s, sep, i);
      SplitJoin(parts[1..], sep);
      assert [parts[0]] + parts[1..] == parts;
    }
  }

  /** `s.split(sep)` for a one-character separator; joining the parts gives `s` back. */
  function Split(s: string, sep: char): (parts: seq<string>)
    ensures |parts| >= 1
    ensures forall k :: 0 <= k < |parts| ==> sep !in parts[k]
    ensures Join(parts, sep) == s
    ensures |parts| > 1 <==> sep in s
    decreases |s|
  {
    match CharIndex(s, sep)
    case None => [s]
    case Some(i) =>
      var rest := Split(s[i + 1..], sep);
      assert s == s[..i] + [sep] + s[i + 1..];
      [s[..i]] + rest
  }

  lemma OccursCharAt(s: string, c: char, i: int)
    ensures OccursAt(s, [c], i) <==> 0 <= i < |s| && s[i] == c
  {
    if 0 <= i < |s| {
      assert s[i..i + 1] == [s[i]];
    }
  }

  /** Searching for a one-character string finds the first occurrence of that character. */
  lemma CharIndexIsIndexOf(s: string, c: char)
    ensures IndexOf(s, [c]) == CharIndex(s, c)
  {
    forall j | 0 <= j
      ensures OccursAt(s, [c], j) <==> j < |s| && s[j] == c
    {
      OccursCharAt(s, c, j);
    }
    match CharIndex(s, c)
    case None =>
    case Some(i) =>
      var a := IndexOf(s, [c]);
      forall j | 0 <= j < i
        ensures s[j] != c
      {
        assert s[..i][j] == s[j];
      }
  }

  /** The first part of `Split` is the text before the first separator. */
  lemma SplitHead(s: string, sep: char)
    ensures Split(s, sep)[0] == Before(s, [sep])
  {
    CharIndexIsIndexOf(s, sep);
  }

  function Repeat(c: char, n: nat): (r: string)
    ensures |r| == n && forall i :: 0 <= i < n ==> r[i] == c
  {
    if n == 0 then [] else [c] + Repeat(c, n - 1)
  }

  /** `s.padStart(w, c)`. */
  function PadStart(s: string, w: nat, c: char): (r: string)
    ensures |r| == if |s| >= w then |s| else w
  {
    if |s| >= w then s else Repeat(c, w - |s|) + s
  }

  /** `s.padEnd(w, c)`. */
  function PadEnd(s: string, w: nat, c: char): (r: string)
    ensures |r| == if |s| >= w then |s| else w
  {
    if |s| >= w then s else s + Repeat(c, w - |s|)
  }

  function Min(a: int, b: int): int { if a <= b then a else b }

  /** End of the run of digits that starts at `i`. */
  function DigitRunEnd(s: string, i: nat): (j: nat)
    requires i <= |s|
    ensures i <= j <= |s|
    ensures forall q :: i <= q < j ==> IsDigit(s[q])
    ensures j == |s| || !IsDigit(s[j])
    decreases |s| - i
  {
    if i < |s| && IsDigit(s[i]) then DigitRunEnd(s, i + 1) else i
  }

  /** A digit run that stops at `j` ends at `j`. */
  lemma {:induction false} DigitRunEndAt(s: string, i: nat, j: nat)
    requires i <= j <= |s|
    requires forall q :: i <= q < j ==> IsDigit(s[q])
    requires j == |s| || !IsDigit(s[j])
    ensures DigitRunEnd(s, i) == j
    decreases j - i
  {
    if i < j {
      DigitRunEndAt(s, i + 1, j);
    }
  }

  /** A digit run reaches at least as far as any all-digit stretch from its start. */
  lemma {:induction false} DigitRunEndAtLeast(s: string, i: nat, j: nat)
    requires i <= j <= |s|
    requires forall q :: i <= q < j ==> IsDigit(s[q])
    ensures DigitRunEnd(s, i) >= j
    decreases j - i
  {
    if i < j {
      DigitRunEndAtLeast(s, i + 1, j);
    }
  }

  /** End of the run of `\s` characters that starts at `i`. */
  function SpaceRunEnd(s: string, i: nat): (j: nat)
    requires i <= |s|
    ensures i <= j <= |s|
    ensures forall q :: i <= q < j ==> IsSpace(s[q])
    ensures j == |s| || !IsSpace(s[j])
    decreases |s| - i
  {
    if i < |s| && IsSpace(s[i]) then SpaceRunEnd(s, i + 1) else i
  }

  /** A space run that stops at `j` ends at `j`. */
  lemma {:induction false} SpaceRunEndAt(s: string, i: nat, j: nat)
    requires i <= j <= |s|
    requires forall q :: i <= q < j ==> IsSpace(s[q])
    requires j == |s| || !IsSpace(s[j])
    ensures SpaceRunEnd(s, i) == j
    decreases j - i
  {
    if i < j {
      SpaceRunEndAt(s, i + 1, j);
    }
  }

  function DigitValue(c: char): (v: nat)
    requires IsDigit(c)
    ensures v < 10
  {
    c as int - '0' as int
  }

  function DigitChar(d: nat): (c: char)
    requires d < 10
    ensures IsDigit(c) && DigitValue(c) == d
  {
    ('0' as int + d) as char
  }

  /** Decimal value of a string of digits. */
  function DigitsValue(s: string): nat
    requires AllDigits(s)
    decreases |s|
  {
    if s == [] then 0 else DigitsValue(s[..|s| - 1]) * 10 + DigitValue(s[|s| - 1])
  }

  /** `String(n)` for a natural number: shortest decimal digits. */
  function NatToString(n: nat): (r: string)
    ensures |r| >= 1 && AllDigits(r)
    ensures DigitsValue(r) == n
    ensures r[0] == '0' ==> n == 0
    decreases n
  {
    if n < 10 then [DigitChar(n)]
    else
      var front := NatToString(n / 10);
      var r := front + [DigitChar(n % 10)];
      assert r[..|r| - 1] == front;
      r
  }

  /** `String(i)` for any integer. */
  function IntToString(i: int): string {
    if i < 0 then "-" + NatToString(-i) else NatToString(i)
  }

  lemma {:induction false} ZerosValue(k: nat)
    ensures AllDigits(Repeat('0', k)) && DigitsValue(Repeat('0', k)) == 0
  {
    if k > 0 {
      var z := Repeat('0', k);
      assert z[..k - 1] == Repeat('0', k - 1);
      ZerosValue(k - 1);
    }
  }

  /** Leading zeros do not change the value of a digit string. */
  lemma {:induction false} LeadingZerosValue(k: nat, s: string)
    requires AllDigits(s)
    ensures AllDigits(Repeat('0', k) + s)
    ensures DigitsValue(Repeat('0', k) + s) == DigitsValue(s)
    decreases |s|
  {
    var z := Repeat('0', k);
    if s == [] {
      assert z + s == z;
      ZerosValue(k);
    } else {
      var t := z + s;
      assert t[..|t| - 1] == z + s[..|s| - 1];
      LeadingZerosValue(k, s[..|s| - 1]);
    }
  }

  /** Zero-padding the decimal form of `n` still reads back as `n`. */
  lemma PaddedValue(n: nat, w: nat)
    ensures AllDigits(PadStart(NatToString(n), w, '0'))
    ensures DigitsValue(PadStart(NatToString(n), w, '0')) == n
  {
    var s := NatToString(n);
    if |s| < w {
      LeadingZerosValue(w - |s|, s);
    }
  }

  /** `trimStart`. */
  function TrimStart(s: string): (r: string)
    ensures |r| <= |s| && r == s[|s| - |r|..]
    ensures r == [] || !IsSpace(r[0])
    ensures forall i :: 0 <= i < |s| - |r| ==> IsSpace(s[i])
  {
    s[SpaceRunEnd(s, 0)..]
  }

  /** `trimEnd`. */
  function TrimEnd(s: string): (r: string)
    ensures |r| <= |s| && r == s[..|r|]
    ensures r == [] || !IsSpace(r[|r| - 1])
    ensures forall i :: |r| <= i < |s| ==> IsSpace(s[i])
    decreases |s|
  {
    if s != [] && IsSpace(s[|s| - 1]) then TrimEnd(s[..|s| - 1]) else s
  }

  /** `trim`: the text between the leading and the trailing `\s` runs. */
  function Trim(s: string): (r: string)
    ensures r == [] <==> forall i :: 0 <= i < |s| ==> IsSpace(s[i])
    ensures r != [] ==> !IsSpace(r[0]) && !IsSpace(r[|r| - 1])
  {
    var t := TrimStart(s);
    var r := TrimEnd(t);
    assert r == [] ==> forall i :: 0 <= i < |s| ==> IsSpace(s[i]) by {
      if r == [] {
        assert t == [];
      }
    }
    assert r != [] ==> !IsSpace(r[0]) by {
      if r != [] {
        assert r[0] == t[0];
      }
    }
    r
  }

  /** Sign and first digit position after leading `\s` (shared by the number scanners). */
  function SignEnd(s: string): (j: nat)
    ensures j <= |s|
  {
    var i := SpaceRunEnd(s, 0);
    if i < |s| && (s[i] == '-' || s[i] == '+') then i + 1 else i
  }

  predicate Negative(s: string) {
    var i := SpaceRunEnd(s, 0);
    i < |s| && s[i] == '-'
  }

  /**
   * A base-10 integer at the start of `s`: leading `\s`, an optional sign,
   * then the longest run of digits; `None` when there is no digit. This is
   * SQL's CAST of a leading integer, and `parseInt` without a `0x` prefix.
   */
  function ParseDecimal(s: string): (r: Option<int>)
    ensures r.None? <==> SignEnd(s) == |s| || !IsDigit(s[SignEnd(s)])
  {
    var j := SignEnd(s);
    var k := DigitRunEnd(s, j);
    if k == j then None
    else
      var mag: int := DigitsValue(s[j..k]);
      Some(if Negative(s) then -mag else mag)
  }

  predicate IsHexDigit(c: char) {
    IsDigit(c) || 'a' <= c <= 'f' || 'A' <= c <= 'F'
  }

  function HexDigitValue(c: char): (v: nat)
    requires IsHexDigit(c)
    ensures v < 16
    ensures IsDigit(c) ==> v == DigitValue(c)
  {
    if IsDigit(c) then DigitValue(c)
    else if 'a' <= c <= 'f' then c as int - 'a' as int + 10
    else c as int - 'A' as int + 10
  }

  predicate AllHexDigits(s: string) { forall i :: 0 <= i < |s| ==> IsHexDigit(s[i]) }

  /** Value of a string of hexadecimal digits. */
  function HexValue(s: string): nat
    requires AllHexDigits(s)
    decreases |s|
  {
    if s == [] then 0 else HexValue(s[..|s| - 1]) * 16 + HexDigitValue(s[|s| - 1])
  }

  /** End of the run of hexadecimal digits that starts at `i`. */
  function HexRunEnd(s: string, i: nat): (j: nat)
    requires i <= |s|
    ensures i <= j <= |s|
    ensures forall q :: i <= q < j ==> IsHexDigit(s[q])
    ensures j == |s| || !IsHexDigit(s[j])
    decreases |s| - i
  {
    if i < |s| && IsHexDigit(s[i]) then HexRunEnd(s, i + 1) else i
  }

  /** After the sign stands `0x` or `0X`: radix-less `parseInt` then reads base 16. */
  predicate HexPrefixed(s: string) {
    var j := SignEnd(s);
    j + 1 < |s| && s[j] == '0' && (s[j + 1] == 'x' || s[j + 1] == 'X')
  }

  /**
   * `parseInt(s)` without a radix: leading `\s` and an optional sign; then,
   * after a `0x`/`0X` prefix, the longest run of hexadecimal digits, else the
   * longest run of decimal digits; `None` (NaN) when the run is empty.
   */
  function ParseInt(s: string): (r: Option<int>)
    ensures !HexPrefixed(s) ==> r == ParseDecimal(s)
    ensures HexPrefixed(s) ==> (r.None? <==> SignEnd(s) + 2 == |s| || !IsHexDigit(s[SignEnd(s) + 2]))
    ensures HexPrefixed(s) && r.Some? ==>
              var j := SignEnd(s) + 2;
              var k := HexRunEnd(s, j);
              r.value == if Negative(s) then -(HexValue(s[j..k]) as int) else HexValue(s[j..k]) as int
  {
    if HexPrefixed(s) then
      var j := SignEnd(s) + 2;
      var k := HexRunEnd(s, j);
      if k == j then None
      else
        var mag: int := HexValue(s[j..k]);
        Some(if Negative(s) then -mag else mag)
    else ParseDecimal(s)
  }

  /** A plain string of digits parses to its value, by either reader. */
  lemma ParseIntDigits(t: string)
    requires |t| > 0 && AllDigits(t)
    ensures ParseDecimal(t) == Some(DigitsValue(t) as int)
    ensures ParseInt(t) == Some(DigitsValue(t) as int)
  {
    assert !IsSpace(t[0]) && t[0] != '-' && t[0] != '+';
    SpaceRunEndAt(t, 0, 0);
    DigitRunEndAt(t, 0, |t|);
    assert t[0..|t|] == t;
    assert |t| > 1 ==> IsDigit(t[1]);
  }

  /**
   * The hexadecimal prefix: "0x7" is 7, "-0x10" is -16 and "0x" is NaN,
   * where a base-10 reading gives 0 for all three.
   */
  lemma HexExamples()
    ensures ParseInt("0x7") == Some(7) && ParseInt("-0x10") == Some(-16) && ParseInt("0x") == None
    ensures ParseDecimal("0x7") == Some(0)
  {
    var a, c := "0x7", "0x";
    HexMinusSixteen();
    SpaceRunEndAt(a, 0, 0);
    SpaceRunEndAt(c, 0, 0);
    assert HexRunEnd(a, 2) == 3;
    assert a[2..3] == "7" && a[..0] == [];
    assert DigitRunEnd(a, 0) == 1;
    assert a[0..1] == "0" && "0"[..0] == [];
  }

  /** The sign comes before the prefix: "-0x10" is -16. */
  lemma HexMinusSixteen()
    ensures ParseInt("-0x10") == Some(-16)
  {
    var b := "-0x10";
    SpaceRunEndAt(b, 0, 0);
    assert HexRunEnd(b, 3) == 5;
    assert b[3..5] == "10" && "10"[..1] == "1" && "1"[..0] == [];
  }

  /** "0x10" is sixteen. */
  lemma HexSixteen()
    ensures ParseInt("0x10") == Some(16)
  {
    var q := "0x10";
    SpaceRunEndAt(q, 0, 0);
    assert HexRunEnd(q, 2) == 4;
    assert q[2..4] == "10" && "10"[..1] == "1" && "1"[..0] == [];
  }

  /** A minus sign followed by digits parses to the negated value. */
  lemma ParseIntMinusDigits(t: string)
    requires |t| >= 2 && t[0] == '-' && AllDigits(t[1..])
    ensures ParseDecimal(t) == Some(-(DigitsValue(t[1..]) as int))
  {
    assert !IsSpace(t[0]);
    SpaceRunEndAt(t, 0, 0);
    assert SignEnd(t) == 1 && Negative(t);
    forall q | 1 <= q < |t|
      ensures IsDigit(t[q])
    {
      assert t[q] == t[1..][q - 1];
    }
    DigitRunEndAt(t, 1, |t|);
    assert t[1..|t|] == t[1..];
  }

  /** Zeros in front of a minus sign parse to 0: the sign is not where a sign may stand. */
  lemma ParseIntZerosBeforeSign(u: string, k: nat)
    requires 0 < k < |u| && u[..k] == Repeat('0', k) && u[k] == '-'
    ensures ParseDecimal(u) == Some(0)
  {
    assert u[0] == u[..k][0];
    SpaceRunEndAt(u, 0, 0);
    assert SignEnd(u) == 0 && !Negative(u);
    forall q | 0 <= q < k
      ensures IsDigit(u[q])
    {
      assert u[q] == u[..k][q];
    }
    DigitRunEndAt(u, 0, k);
    assert u[0..k] == Repeat('0', k);
    ZerosValue(k);
  }

  /** `parseInt(raw) || fallback`: NaN and 0 are both falsy. */
  function ParseIntOr(raw: string, fallback: int): (v: int)
    ensures ParseInt(raw).Some? && ParseInt(raw).value != 0 ==> v == ParseInt(raw).value
    ensures ParseInt(raw).None? || ParseInt(raw).value == 0 ==> v == fallback
  {
    match ParseInt(raw)
    case Some(n) => if n == 0 then fallback else n
    case None => fallback
  }

  /**
   * The fraction digits in hundredths, rounded half up on the third digit
   * as a DECIMAL(p,2) column stores them; 100 when ".995" and above carry
   * into the units.
   */
  function Hundredths(frac: string): (h: nat)
    requires AllDigits(frac)
    ensures h <= 100
  {
    var d0 := if |frac| >= 1 then DigitValue(frac[0]) else 0;
    var d1 := if |frac| >= 2 then DigitValue(frac[1]) else 0;
    var up := if |frac| >= 3 && DigitValue(frac[2]) >= 5 then 1 else 0;
    d0 * 10 + d1 + up
  }

  /**
   * `parseFloat(s)` stored in a DECIMAL(p,2) column, in hundredths: leading
   * `\s`, an optional sign, integer digits, optionally `.` and fraction
   * digits, rounded to two places half away from zero.
   */
  function ParseMoney(s: string): (r: Option<int>)
  {
    var j := SignEnd(s);
    var k := DigitRunEnd(s, j);
    var dot := k < |s| && s[k] == '.';
    var f := if dot then DigitRunEnd(s, k + 1) else k;
    var frac := if dot then s[k + 1..f] else "";
    if k == j && frac == "" then None
    else
      var mag: int := DigitsValue(s[j..k]) * 100 + Hundredths(frac);
      Some(if Negative(s) then -mag else mag)
  }

  /**
   * Three fraction digits are rounded to two: "12.345" is 1235 hundredths
   * and "9.999" is 1000.
   */
  lemma MoneyRounds(n: nat, f: string)
    requires |f| == 3 && AllDigits(f)
    ensures ParseMoney(NatToString(n) + "." + f)
            == Some(n * 100 + DigitValue(f[0]) * 10 + DigitValue(f[1]) + (if DigitValue(f[2]) >= 5 then 1 else 0))
  {
    var w := NatToString(n);
    var s := w + "." + f;
    var k := |w|;
    assert SignEnd(s) == 0 && !Negative(s) by {
      assert s[0] == w[0] && IsDigit(w[0]);
      assert SpaceRunEnd(s, 0) == 0;
    }
    assert DigitRunEnd(s, 0) == k by {
      forall q | 0 <= q < k ensures IsDigit(s[q]) { assert s[q] == w[q]; }
      DigitRunEndAt(s, 0, k);
    }
    assert s[k] == '.';
    assert DigitRunEnd(s, k + 1) == |s| by {
      forall q | k + 1 <= q < |s| ensures IsDigit(s[q]) { assert s[q] == f[q - k - 1]; }
      DigitRunEndAt(s, k + 1, |s|);
    }
    assert s[0..k] == w && s[k + 1..|s|] == f;
  }

  /** A string of digits parses back to its value, whole units times 100. */
  lemma ParseMoneyDigits(n: nat)
    ensures ParseMoney(NatToString(n)) == Some(n * 100)
  {
    var s := NatToString(n);
    assert !IsSpace(s[0]) && s[0] != '-' && s[0] != '+';
    assert SpaceRunEnd(s, 0) == 0;
    assert SignEnd(s) == 0;
    assert DigitRunEnd(s, 0) == |s|;
    assert s[0..|s|] == s;
  }
}
