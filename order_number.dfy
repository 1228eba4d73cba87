/**
 * Order numbers `ORD-PPPP-NNNNNN` (routes/customer.js, POST /order):
 * a four-character prefix taken from the vendor's company name and a
 * sequence number one above the largest suffix among the vendor's orders.
 */
module OrderNumber {
  import opened Wrappers
  import opened Text

  /** The characters of `s` that are upper-case ASCII letters or digits, in order. */
  function KeepUpperAlnum(s: string): (r: string)
    ensures |r| <= |s|
    ensures forall i :: 0 <= i < |r| ==> IsUpperAlnum(r[i])
    ensures (forall i :: 0 <= i < |s| ==> IsUpperAlnum(s[i])) ==> r == s
  {
    if s == [] then []
    else if IsUpperAlnum(s[0]) then [s[0]] + KeepUpperAlnum(s[1..])
    else KeepUpperAlnum(s[1..])
  }

  /**
   * The company part of the number: the company name (or "MED" when it is
   * missing or empty), upper-cased, with everything outside A-Z and 0-9
   * removed, cut to four characters and padded with 'X'.
   */
  function CompanyPrefix(companyName: Option<string>): (p: string)
    ensures |p| == 4
    ensures forall i :: 0 <= i < 4 ==> IsUpperAlnum(p[i])
    ensures var kept := KeepUpperAlnum(ToUpper(if companyName.None? || companyName.value == "" then "MED" else companyName.value));
            (|kept| >= 4 ==> p == kept[..4])
            && (|kept| < 4 ==> p[..|kept|] == kept && forall i :: |kept| <= i < 4 ==> p[i] == 'X')
  {
    var name := if companyName.None? || companyName.value == "" then "MED" else companyName.value;
    var kept := KeepUpperAlnum(ToUpper(name));
    var cut := kept[..Min(4, |kept|)];
    var p := PadEnd(cut, 4, 'X');
    assert |kept| < 4 ==> p == kept + Repeat('X', 4 - |kept|);
    p
  }

  /** The zero-padded sequence part: `String(n).padStart(6, '0')`. */
  function SequenceText(n: int): string {
    PadStart(IntToString(n), 6, '0')
  }

  /** `ORD-` + prefix + `-` + sequence. */
  function FormatOrderNumber(prefix: string, n: int): string {
    "ORD-" + prefix + "-" + SequenceText(n)
  }

  /**
   * `CAST(SUBSTR(order_number, 10) AS INTEGER)`: the integer at the start of the
   * text from the tenth character on (1-based), 0 when there is none.
   */
  function SuffixValue(orderNumber: string): int {
    var tail := if |orderNumber| >= 9 then orderNumber[9..] else "";
    match ParseDecimal(tail)
    case Some(v) => v
    case None => 0
  }

  /** The suffix value of each order number. */
  function Suffixes(numbers: seq<string>): (r: seq<int>)
    ensures |r| == |numbers|
    ensures forall i :: 0 <= i < |numbers| ==> r[i] == SuffixValue(numbers[i])
  {
    seq(|numbers|, i requires 0 <= i < |numbers| => SuffixValue(numbers[i]))
  }

  /** `MAX(...)`: the largest value, or no value at all (NULL) when there are no rows. */
  function MaxOf(vals: seq<int>): (r: Option<int>)
    ensures r.None? <==> vals == []
    ensures r.Some? ==> r.value in vals
    ensures r.Some? ==> forall i :: 0 <= i < |vals| ==> vals[i] <= r.value
  {
    if vals == [] then None
    else match MaxOf(vals[1..])
      case None => Some(vals[0])
      case Some(m) => Some(if vals[0] < m then m else vals[0])
  }

  /** `MAX(CAST(SUBSTR(order_number, 10) AS INTEGER))` over the vendor's orders. */
  function MaxSuffix(numbers: seq<string>): Option<int> {
    MaxOf(Suffixes(numbers))
  }

  /** The next sequence number: one above the maximum, or 1 when the maximum is missing or 0. */
  function NextSequence(max: Option<int>): (n: int)
    ensures max.None? ==> n == 1
    ensures max.Some? ==> n == if max.value == 0 then 1 else max.value + 1
  {
    if max.None? || max.value == 0 then 1 else max.value + 1
  }

  /** The number the handler generates for a vendor with the given company name and existing numbers. */
  function NewOrderNumber(companyName: Option<string>, existing: seq<string>): string {
    FormatOrderNumber(CompanyPrefix(companyName), NextSequence(MaxSuffix(existing)))
  }

  /** Reading the suffix of a generated number gives back its sequence number. */
  lemma SuffixRoundTrip(prefix: string, n: nat)
    requires |prefix| == 4
    ensures SuffixValue(FormatOrderNumber(prefix, n)) == n
  {
    var digits := SequenceText(n);
    var o := FormatOrderNumber(prefix, n);
    assert o[9..] == digits;
    PaddedValue(n, 6);
    ParseIntDigits(digits);
  }

  /** A generated number has the shape `ORD-PPPP-` followed by at least six digits. */
  lemma GeneratedShape(prefix: string, n: nat)
    requires |prefix| == 4
    ensures var o := FormatOrderNumber(prefix, n);
            |o| >= 15 && o[..4] == "ORD-" && o[4..8] == prefix && o[8] == '-' && AllDigits(o[9..])
  {
    PaddedValue(n, 6);
    FormatSlices(prefix, n);
  }

  /** Where the parts of a formatted number sit. */
  lemma FormatSlices(prefix: string, n: int)
    requires |prefix| == 4
    ensures var o := FormatOrderNumber(prefix, n);
            |o| == 9 + |SequenceText(n)| && o[..4] == "ORD-" && o[4..8] == prefix && o[8] == '-' && o[9..] == SequenceText(n)
  {
    var head, t := "ORD-", SequenceText(n);
    var o := head + prefix + "-" + t;
    assert |head| == 4;
    assert o[..4] == head;
    assert o[4..8] == prefix;
    assert o[9..] == t;
  }

  /**
   * A negative sequence (possible only when every stored suffix is negative)
   * reads back either as itself or, once zero-padded in front of its minus
   * sign, as 0.
   */
  lemma NegativeSuffix(prefix: string, n: int)
    requires |prefix| == 4 && n < 0
    ensures SuffixValue(FormatOrderNumber(prefix, n)) in {0, n}
  {
    var t := IntToString(n);
    var o := FormatOrderNumber(prefix, n);
    assert o[9..] == SequenceText(n);
    if |t| >= 6 {
      assert t[1..] == NatToString(-n);
      ParseIntMinusDigits(t);
    } else {
      var z := Repeat('0', 6 - |t|);
      var u := z + t;
      assert SequenceText(n) == u;
      assert u[..|z|] == z && u[|z|] == '-';
      ParseIntZerosBeforeSign(u, |z|);
    }
  }

  /** A number whose sequence is above every existing suffix is not among the existing numbers. */
  lemma AboveAllIsFresh(prefix: string, n: int, existing: seq<string>)
    requires |prefix| == 4
    requires forall i :: 0 <= i < |existing| ==> SuffixValue(existing[i]) < n
    requires n < 0 ==> forall i :: 0 <= i < |existing| ==> SuffixValue(existing[i]) < 0
    ensures FormatOrderNumber(prefix, n) !in existing
  {
    if n >= 0 {
      SuffixRoundTrip(prefix, n);
    } else {
      NegativeSuffix(prefix, n);
    }
  }

  /**
   * The new number differs from every existing number of the vendor (so the
   * UNIQUE(admin_id, order_number) constraint is not hit), whatever the prefix
   * and whatever the stored numbers look like.
   */
  lemma NewNumberIsFresh(companyName: Option<string>, existing: seq<string>)
    ensures NewOrderNumber(companyName, existing) !in existing
  {
    var sfx := Suffixes(existing);
    var max := MaxOf(sfx);
    var n := NextSequence(max);
    forall i | 0 <= i < |existing|
      ensures SuffixValue(existing[i]) < n
      ensures n < 0 ==> SuffixValue(existing[i]) < 0
    {
      assert sfx[i] == SuffixValue(existing[i]);
    }
    AboveAllIsFresh(CompanyPrefix(companyName), n, existing);
  }

  /** The first order of a vendor called "Ac-me" is ORD-ACME-000001. */
  lemma FirstOrderExample()
    ensures NewOrderNumber(Some("Ac-me"), []) == "ORD-" + "ACME" + "-" + "000001"
  {
    AcmePrefix();
    FirstSequence();
    assert NextSequence(MaxSuffix([])) == 1;
    assert NewOrderNumber(Some("Ac-me"), []) == FormatOrderNumber("ACME", 1);
  }

  /** "Ac-me" is upper-cased and loses its hyphen. */
  lemma AcmePrefix()
    ensures CompanyPrefix(Some("Ac-me")) == "ACME"
  {
    var up := ToUpper("Ac-me");
    assert up == "AC-ME";
    assert KeepUpperAlnum("E") == "E";
    assert KeepUpperAlnum("ME") == "ME";
    assert KeepUpperAlnum("-ME") == "ME";
    assert KeepUpperAlnum("C-ME") == "CME";
    assert KeepUpperAlnum(up) == "ACME";
  }

  /** Sequence number 1 is written 000001. */
  lemma FirstSequence()
    ensures SequenceText(1) == "000001"
  {
    assert NatToString(1) == "1";
    assert Repeat('0', 5) == "00000";
  }

  /** Without a company name the prefix is MEDX: "MED" padded with one 'X'. */
  lemma PrefixExamples()
    ensures CompanyPrefix(None) == "MED" + "X"
    ensures CompanyPrefix(Some("")) == "MED" + "X"
  {
    assert ToUpper("MED") == "MED";
    assert KeepUpperAlnum("MED") == "MED";
  }

  /** A name with nothing usable gives XXXX. */
  lemma NothingUsablePrefix()
    ensures CompanyPrefix(Some("&-!")) == Repeat('X', 4)
  {
    assert ToUpper("&-!") == "&-!";
    assert KeepUpperAlnum("&-!") == "";
  }
}
