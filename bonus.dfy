/**
 * "Buy N get M" offers (routes/customer.js, calculateBonus).
 *
 * The offer text is searched for the regular expression
 * `(\d+)\s*\+\s*(\d+)`; the first match gives the quantity to buy and the
 * quantity given free. The matcher below is a scanner that reproduces the
 * leftmost, greedy match; `PatternAt` is the declarative reading of the
 * pattern that the scanner is proved against.
 */
module Bonus {
  import opened Wrappers
  import opened Text

  /**
   * The pattern matches `s[i..n]` with the buy digits `s[i..j]`, spaces
   * `s[j..k]`, the plus sign at `k`, spaces `s[k+1..m]` and free digits `s[m..n]`.
   */
  predicate PatternAt(s: string, i: int, j: int, k: int, m: int, n: int) {
    0 <= i < j <= k < m < n <= |s|
    && (forall q :: i <= q < j ==> IsDigit(s[q]))
    && (forall q :: j <= q < k ==> IsSpace(s[q]))
    && s[k] == '+'
    && (forall q :: k < q < m ==> IsSpace(s[q]))
    && (forall q :: m <= q < n ==> IsDigit(s[q]))
  }

  /** The positions of the two captured groups of a match. */
  datatype Groups = Groups(buyStart: nat, buyEnd: nat, plusAt: nat, freeStart: nat, freeEnd: nat)

  /** The match starting at `i`, if any, with both digit runs taken greedily. */
  function MatchAt(s: string, i: nat): (r: Option<Groups>)
    requires i <= |s|
    ensures r.Some? ==> r.value.buyStart == i
    ensures r.Some? ==> PatternAt(s, i, r.value.buyEnd, r.value.plusAt, r.value.freeStart, r.value.freeEnd)
    ensures r.Some? ==> r.value.freeEnd == |s| || !IsDigit(s[r.value.freeEnd])
  {
    var j := DigitRunEnd(s, i);
    var k := SpaceRunEnd(s, j);
    if j == i || k == |s| || s[k] != '+' then None
    else
      var m := SpaceRunEnd(s, k + 1);
      var n := DigitRunEnd(s, m);
      if n == m then None
      else
        assert PatternAt(s, i, j, k, m, n);
        Some(Groups(i, j, k, m, n))
  }

  /**
   * Whatever way the pattern fits at `i`, the scanner finds a match there with
   * the same buy digits, the same plus sign, the same free-digit start and a
   * free run at least as long.
   */
  lemma PatternFound(s: string, i: nat, j: int, k: int, m: int, n: int)
    requires PatternAt(s, i, j, k, m, n)
    ensures MatchAt(s, i).Some?
    ensures MatchAt(s, i).value.buyEnd == j
    ensures MatchAt(s, i).value.plusAt == k
    ensures MatchAt(s, i).value.freeStart == m
    ensures MatchAt(s, i).value.freeEnd >= n
  {
    assert !IsDigit(s[j]);
    DigitRunEndAt(s, i, j);
    assert !IsSpace(s[k]);
    SpaceRunEndAt(s, j, k);
    assert !IsSpace(s[m]);
    SpaceRunEndAt(s, k + 1, m);
    DigitRunEndAtLeast(s, m, n);
  }

  /** The leftmost match at or after `from` (what `String.prototype.match` returns). */
  function FindMatch(s: string, from: nat): (r: Option<Groups>)
    requires from <= |s|
    ensures r.Some? ==> from <= r.value.buyStart <= |s| && MatchAt(s, r.value.buyStart) == r
    ensures r.Some? ==> forall i :: from <= i < r.value.buyStart ==> MatchAt(s, i).None?
    ensures r.None? ==> forall i :: from <= i <= |s| ==> MatchAt(s, i).None?
    decreases |s| - from
  {
    var here := MatchAt(s, from);
    if here.Some? then here
    else if from == |s| then None
    else
      var r := FindMatch(s, from + 1);
      assert forall i :: from <= i <= from ==> MatchAt(s, i).None?;
      r
  }

  /** The bonus for one cart line: floor(qty / buy) * free when qty reaches buy. */
  function CalculateBonus(offerText: Option<string>, purchasedQty: int): (bonus: nat)
    ensures bonus > 0 ==> offerText.Some? && offerText.value != ""
  {
    if offerText.None? || offerText.value == "" then 0
    else
      var s := offerText.value;
      match FindMatch(s, 0)
      case None => 0
      case Some(g) =>
        var buy := DigitsValue(s[g.buyStart..g.buyEnd]);
        var free := DigitsValue(s[g.freeStart..g.freeEnd]);
        if buy > 0 && purchasedQty >= buy then
          var times := Quotient(purchasedQty, buy);
          MulMonotone(0, times, free);
          times * free
        else 0
  }

  /**
   * If `s[i..n]` is the first place where the pattern fits (no fit starts
   * earlier), with the free digits running as far as they go, then that is
   * the match the search returns.
   */
  lemma FirstPatternFound(s: string, i: nat, j: int, k: int, m: int, n: int)
    requires PatternAt(s, i, j, k, m, n)
    requires n == |s| || !IsDigit(s[n])
    requires forall i', j', k', m', n' :: 0 <= i' < i ==> !PatternAt(s, i', j', k', m', n')
    ensures FindMatch(s, 0) == Some(Groups(i, j, k, m, n))
  {
    PatternFound(s, i, j, k, m, n);
    DigitRunEndAt(s, m, n);
    forall i' | 0 <= i' < i
      ensures MatchAt(s, i').None?
    {
    }
  }

  /**
   * The bonus in terms of the pattern alone: the first fit of the pattern
   * gives buy and free, and the bonus is floor(qty / buy) * free when
   * buy > 0 and qty >= buy, and 0 otherwise.
   */
  lemma BonusFromFirstPattern(s: string, i: nat, j: int, k: int, m: int, n: int, qty: int)
    requires PatternAt(s, i, j, k, m, n)
    requires n == |s| || !IsDigit(s[n])
    requires forall i', j', k', m', n' :: 0 <= i' < i ==> !PatternAt(s, i', j', k', m', n')
    ensures AllDigits(s[i..j]) && AllDigits(s[m..n])
    ensures var buy := DigitsValue(s[i..j]);
            var free := DigitsValue(s[m..n]);
            CalculateBonus(Some(s), qty) == if buy > 0 && qty >= buy then (qty / buy) * free else 0
  {
    FirstPatternFound(s, i, j, k, m, n);
  }

  /** Text where the pattern fits nowhere gives no bonus, whatever the quantity. */
  lemma NoPatternNoBonus(s: string, qty: int)
    requires forall i, j, k, m, n :: !PatternAt(s, i, j, k, m, n)
    ensures CalculateBonus(Some(s), qty) == 0
  {
    assert FindMatch(s, 0).None?;
  }

  /** A bonus is only granted once the purchased quantity reaches the buy quantity. */
  lemma BonusNeedsQuantity(s: string, qty: int)
    requires CalculateBonus(Some(s), qty) > 0
    ensures FindMatch(s, 0).Some?
    ensures var g := FindMatch(s, 0).value;
            0 < DigitsValue(s[g.buyStart..g.buyEnd]) <= qty
  {
  }

  /** The bonus never decreases when more is bought. */
  lemma {:induction false} BonusMonotone(offerText: Option<string>, q1: int, q2: int)
    requires q1 <= q2
    ensures CalculateBonus(offerText, q1) <= CalculateBonus(offerText, q2)
  {
    if offerText.Some? && offerText.value != "" {
      var s := offerText.value;
      match FindMatch(s, 0)
      case None =>
      case Some(g) =>
        var buy := DigitsValue(s[g.buyStart..g.buyEnd]);
        var free := DigitsValue(s[g.freeStart..g.freeEnd]);
        if buy > 0 && q1 >= buy {
          DivMonotone(q1, q2, buy);
          assert (q1 / buy) * free <= (q2 / buy) * free by {
            MulMonotone(q1 / buy, q2 / buy, free);
          }
        }
    }
  }

  lemma DivMonotone(a: int, b: int, d: int)
    requires 0 <= a <= b && d > 0
    ensures a / d <= b / d
  {
    var qa, qb := a / d, b / d;
    assert qa * d <= a;
    assert b < (qb + 1) * d;
    MulMonotone(qb + 1, qa, d);
  }

  lemma MulMonotone(a: int, b: int, c: nat)
    ensures a <= b ==> a * c <= b * c
  {
  }

  /** How many whole times `d` goes into `n`, the `Math.floor(n / d)` of the offer. */
  function Quotient(n: int, d: int): (q: nat)
    requires 0 < d <= n
    ensures q == n / d && q >= 1
  {
    MulMonotone(n / d, 0, d);
    n / d
  }

  /** The pattern cannot start where there is no digit. */
  lemma NoDigitNoPattern(s: string, e: int)
    requires e <= |s|
    requires forall q :: 0 <= q < e ==> !IsDigit(s[q])
    ensures forall i, j, k, m, n :: 0 <= i < e ==> !PatternAt(s, i, j, k, m, n)
  {
    forall i, j, k, m, n | 0 <= i < e
      ensures !PatternAt(s, i, j, k, m, n)
    {
      assert !IsDigit(s[i]);
    }
  }

  /** "5+1": twelve bought earn two free, four bought earn none. */
  lemma ExampleFivePlusOne()
    ensures CalculateBonus(Some("5+1"), 12) == 2
    ensures CalculateBonus(Some("5+1"), 4) == 0
  {
    var a := "5+1";
    assert PatternAt(a, 0, 1, 1, 2, 3);
    assert a[0..1] == "5" && a[2..3] == "1";
    assert DigitsValue("5") == 5 by { assert "5"[..0] == ""; }
    assert DigitsValue("1") == 1 by { assert "1"[..0] == ""; }
    BonusFromFirstPattern(a, 0, 1, 1, 2, 3, 12);
    BonusFromFirstPattern(a, 0, 1, 1, 2, 3, 4);
  }

  /** Words before the numbers and spaces around the plus sign are allowed. */
  lemma ExampleSpaced(b: string)
    requires b == "Buy 10 + 2 free"
    ensures CalculateBonus(Some(b), 25) == 4
  {
    assert PatternAt(b, 4, 6, 7, 9, 10);
    assert !IsDigit(b[0]) && !IsDigit(b[1]) && !IsDigit(b[2]) && !IsDigit(b[3]);
    NoDigitNoPattern(b, 4);
    var buy, free := b[4..6], b[9..10];
    assert buy == "10" && free == "2";
    assert DigitsValue(buy) == 10 by { assert buy[..1] == "1"; assert "1"[..0] == ""; }
    assert DigitsValue(free) == 2 by { assert free[..0] == ""; }
    BonusFromFirstPattern(b, 4, 6, 7, 9, 10, 25);
    assert CalculateBonus(Some(b), 25) == (25 / 10) * 2;
  }

  /** Text without a number pair, and a missing offer, give no bonus. */
  lemma ExampleNoOffer()
    ensures CalculateBonus(Some("no offer"), 100) == 0
    ensures CalculateBonus(None, 100) == 0
  {
    var c := "no offer";
    forall q | 0 <= q < |c|
      ensures !IsDigit(c[q])
    {
    }
    NoDigitNoPattern(c, |c|);
    NoPatternNoBonus(c, 100);
  }
}
