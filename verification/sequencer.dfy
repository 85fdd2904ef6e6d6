/**
 The order-number sequencer shared by automatic and manual order creation.

 An order number reads `PED-<year>-<sequence>`, the sequence zero-padded to
 four digits. The code as written takes the lexicographically greatest number
 of the year, parses its third `-` field and adds one. Lexicographic and
 numeric order part at sequence 10000 ("PED-y-10000" sorts before
 "PED-y-9999"), after which the same number is issued again and again.
 `NextNumberAsWritten` models that code; `NextNumber` takes the numeric
 maximum instead and is the sequencer the order writer uses.
 */
module Sequencer {
  import opened Wrappers
  import opened Text

  /** `padStart(4, '0')`. */
  const SequenceWidth: nat := 4

  /** The `LIKE 'PED-<year>-%'` pattern, without its wildcard. */
  function YearPrefix(year: nat): string {
    "PED-" + Decimal(year) + "-"
  }

  predicate HasPrefix(s: string, p: string) {
    |p| <= |s| && s[..|p|] == p
  }

  /** The text of the number with sequence `x` in `year`. */
  function OrderNumber(year: nat, x: Num): string {
    YearPrefix(year) + PadStart(NumText(x), SequenceWidth)
  }

  /** `Number(numero.split('-')[2])`; a missing third field is `undefined`, hence NaN. */
  function SequenceOf(number: string): Num {
    var parts := Split(number, '-');
    if |parts| > 2 then NumberOf(parts[2]) else NaN
  }

  lemma PaddedDigits(n: nat)
    ensures AllDigits(PadStart(Decimal(n), SequenceWidth))
  {
    var d := Decimal(n);
    if |d| < SequenceWidth {
      ValueIgnoresLeadingZeros(SequenceWidth - |d|, d);
    }
  }

  lemma NoDashInDigits(s: string)
    requires AllDigits(s)
    ensures '-' !in s
  {
    forall i | 0 <= i < |s|
      ensures s[i] != '-'
    {
      assert IsDigit(s[i]);
    }
  }

  /** An order number splits into "PED", the year and the padded sequence. */
  lemma OrderNumberFields(year: nat, n: nat)
    ensures Split(OrderNumber(year, Int(n)), '-')
         == ["PED", Decimal(year), PadStart(Decimal(n), SequenceWidth)]
  {
    var d, p := Decimal(year), PadStart(Decimal(n), SequenceWidth);
    var w := d + ['-'] + p;
    PaddedDigits(n);
    NoDashInDigits(d);
    NoDashInDigits(p);
    assert OrderNumber(year, Int(n)) == "PED" + ['-'] + w by {
      assert NumText(Int(n)) == Decimal(n);
      PrefixShape(year, p);
    }
    SplitLeadingField("PED", '-', w);
    SplitLeadingField(d, '-', p);
    SplitWithoutSeparator(p, '-');
    assert ["PED"] + ([d] + [p]) == ["PED", d, p];
  }

  /** Parsing the sequence back out of a formatted number gives the sequence. */
  lemma SequenceOfOrderNumber(year: nat, n: nat)
    ensures SequenceOf(OrderNumber(year, Int(n))) == Int(n)
  {
    OrderNumberFields(year, n);
    NumberOfPadded(n, SequenceWidth);
  }

  /** Numbers of one year with different sequences differ. */
  lemma OrderNumberInjective(year: nat, m: nat, n: nat)
    requires OrderNumber(year, Int(m)) == OrderNumber(year, Int(n))
    ensures m == n
  {
    SequenceOfOrderNumber(year, m);
    SequenceOfOrderNumber(year, n);
  }

  /** A number formatted for one year never matches another year's pattern. */
  lemma PrefixDeterminesYear(y1: nat, x: Num, y2: nat)
    requires HasPrefix(OrderNumber(y1, x), YearPrefix(y2))
    ensures y1 == y2
  {
    var s, p := OrderNumber(y1, x), YearPrefix(y2);
    var d1, d2 := Decimal(y1), Decimal(y2);
    NoDashInDigits(d1);
    NoDashInDigits(d2);
    PrefixShape(y1, PadStart(NumText(x), SequenceWidth));
    var rest := s[|p|..];
    assert s == p + rest by {
      assert s == s[..|p|] + s[|p|..];
    }
    PrefixShape(y2, rest);
    SameLeadingFields(d1, PadStart(NumText(x), SequenceWidth), d2, rest);
    DecimalInjective(y1, y2);
  }

  lemma PrefixShape(year: nat, rest: string)
    ensures YearPrefix(year) + rest == "PED" + ['-'] + (Decimal(year) + ['-'] + rest)
  {
  }

  /** Two texts `PED-<d>-...` with dash-free `d` that are equal have the same `d`. */
  lemma SameLeadingFields(d1: string, rest1: string, d2: string, rest2: string)
    requires '-' !in d1 && '-' !in d2
    requires "PED" + ['-'] + (d1 + ['-'] + rest1) == "PED" + ['-'] + (d2 + ['-'] + rest2)
    ensures d1 == d2
  {
    SplitFieldOne(d1, rest1);
    SplitFieldOne(d2, rest2);
    assert (["PED", d1] + Split(rest1, '-'))[1] == d1;
    assert (["PED", d2] + Split(rest2, '-'))[1] == d2;
  }

  lemma SplitFieldOne(d: string, rest: string)
    requires '-' !in d
    ensures Split("PED" + ['-'] + (d + ['-'] + rest), '-') == ["PED", d] + Split(rest, '-')
  {
    SplitLeadingField("PED", '-', d + ['-'] + rest);
    SplitLeadingField(d, '-', rest);
  }

  /** On sequences up to 9999, the order of the texts is the order of the sequences. */
  lemma OrderNumberLexOrder(year: nat, a: nat, b: nat)
    requires a <= 9999 && b <= 9999
    ensures LexLess(OrderNumber(year, Int(a)), OrderNumber(year, Int(b))) <==> a < b
  {
    var pa, pb := PadStart(Decimal(a), SequenceWidth), PadStart(Decimal(b), SequenceWidth);
    assert Pow10(4) == 10000;
    DecimalLength(a, 4);
    DecimalLength(b, 4);
    PaddedDigits(a);
    PaddedDigits(b);
    NumberOfPadded(a, SequenceWidth);
    NumberOfPadded(b, SequenceWidth);
    LexCommonPrefix(YearPrefix(year), pa, pb);
    LexDigitsIsNumeric(pa, pb);
  }

  /**
   The number `ORDER BY numero_pedido DESC LIMIT 1` returns among those
   matching this year's pattern.
   */
  function LastOfYear(numbers: seq<string>, year: nat): Option<string> {
    if |numbers| == 0 then None
    else
      var rest := LastOfYear(numbers[1..], year);
      if !HasPrefix(numbers[0], YearPrefix(year)) then rest
      else match rest
        case None => Some(numbers[0])
        case Some(m) => if LexLess(m, numbers[0]) then Some(numbers[0]) else Some(m)
  }

  /** `LastOfYear` is the lexicographically greatest number of the year, if any exists. */
  lemma {:induction false} LastOfYearIsGreatest(numbers: seq<string>, year: nat)
    ensures LastOfYear(numbers, year).None?
        <==> forall i :: 0 <= i < |numbers| ==> !HasPrefix(numbers[i], YearPrefix(year))
    ensures LastOfYear(numbers, year).Some? ==>
              var m := LastOfYear(numbers, year).value;
              && m in numbers && HasPrefix(m, YearPrefix(year))
              && forall i :: 0 <= i < |numbers| && HasPrefix(numbers[i], YearPrefix(year))
                   ==> numbers[i] == m || LexLess(numbers[i], m)
  {
    if |numbers| > 0 {
      var tail := numbers[1..];
      LastOfYearIsGreatest(tail, year);
      var rest := LastOfYear(tail, year);
      assert forall i :: 1 <= i < |numbers| ==> numbers[i] == tail[i - 1];
      if HasPrefix(numbers[0], YearPrefix(year)) && rest.Some? {
        var m := rest.value;
        LexTotal(m, numbers[0]);
        if LexLess(m, numbers[0]) {
          forall i | 1 <= i < |numbers| && HasPrefix(numbers[i], YearPrefix(year))
            ensures LexLess(numbers[i], numbers[0])
          {
            if numbers[i] != m {
              LexTransitive(numbers[i], m, numbers[0]);
            }
          }
        }
      }
    }
  }

  /** The sequence the code as written issues next: one past the third field of the last number. */
  function NextSequenceAsWritten(numbers: seq<string>, year: nat): Num {
    match LastOfYear(numbers, year)
    case None => Int(1)
    case Some(last) => Increment(SequenceOf(last))
  }

  /** The number the code as written issues next for `year`. */
  function NextNumberAsWritten(numbers: seq<string>, year: nat): string {
    OrderNumber(year, NextSequenceAsWritten(numbers, year))
  }

  /**
   Once "PED-y-10000" exists beside "PED-y-9999", the code as written issues
   "PED-y-10000" again: the new number is not fresh.
   */
  lemma AsWrittenRepeatsAfter9999(year: nat)
    ensures NextNumberAsWritten([OrderNumber(year, Int(9999)), OrderNumber(year, Int(10000))], year)
         == OrderNumber(year, Int(10000))
  {
    LastOfYearAfter9999(year);
    SequenceOfOrderNumber(year, 9999);
  }

  /**
   When the year's last number has a sequence field that is not digits,
   `Number()` gives NaN, NaN + 1 is NaN, and the code as written issues
   "PED-y-0NaN".
   */
  lemma AsWrittenAfterMalformed(year: nat)
    ensures NextNumberAsWritten([YearPrefix(year) + "X"], year) == YearPrefix(year) + "0NaN"
  {
    var p, d := YearPrefix(year), Decimal(year);
    var m := p + "X";
    assert m[..|p|] == p;
    var ms: seq<string> := [m];
    assert ms[1..] == [];
    assert LastOfYear(ms, year) == Some(m);
    PrefixShape(year, "X");
    NoDashInDigits(d);
    SplitLeadingField("PED", '-', d + ['-'] + "X");
    SplitLeadingField(d, '-', "X");
    SplitWithoutSeparator("X", '-');
    assert Split(m, '-') == ["PED", d, "X"];
    assert !IsDigit("X"[0]);
    assert SequenceOf(m) == NaN;
    assert PadStart("NaN", SequenceWidth) == "0NaN" by {
      assert Zeros(1) == "0";
    }
  }

  /** "PED-y-9999" sorts after "PED-y-10000", so it is the year's last number. */
  lemma LastOfYearAfter9999(year: nat)
    ensures LastOfYear([OrderNumber(year, Int(9999)), OrderNumber(year, Int(10000))], year)
         == Some(OrderNumber(year, Int(9999)))
  {
    var a, b := OrderNumber(year, Int(9999)), OrderNumber(year, Int(10000));
    DecimalsAround10000();
    assert a == YearPrefix(year) + "9999";
    assert b == YearPrefix(year) + "10000";
    LexCommonPrefix(YearPrefix(year), "10000", "9999");
    assert LexLess(b, a);
    assert HasPrefix(a, YearPrefix(year)) && HasPrefix(b, YearPrefix(year));
    assert [a, b][1..] == [b];
    assert LastOfYear([b], year) == Some(b);
  }

  lemma DecimalsAround10000()
    ensures Decimal(9999) == "9999" && Decimal(10000) == "10000"
  {
    assert Decimal(9) == "9";
    assert Decimal(99) == Decimal(9) + "9";
    assert Decimal(999) == Decimal(99) + "9";
    assert Decimal(1) == "1";
    assert Decimal(10) == Decimal(1) + "0";
    assert Decimal(100) == Decimal(10) + "0";
    assert Decimal(1000) == Decimal(100) + "0";
  }

  /** The greatest sequence among this year's numbers; 0 when the year has none. */
  function MaxSequence(numbers: seq<string>, year: nat): (r: nat)
    ensures forall i :: (0 <= i < |numbers| && HasPrefix(numbers[i], YearPrefix(year))
              && SequenceOf(numbers[i]).Int?) ==> SequenceOf(numbers[i]).value <= r
    ensures r == 0 || exists i :: (0 <= i < |numbers| && HasPrefix(numbers[i], YearPrefix(year))
              && SequenceOf(numbers[i]) == Int(r))
  {
    if |numbers| == 0 then 0
    else
      var rest := MaxSequence(numbers[1..], year);
      var x := SequenceOf(numbers[0]);
      assert forall i :: 1 <= i < |numbers| ==> numbers[i] == numbers[1..][i - 1];
      if HasPrefix(numbers[0], YearPrefix(year)) && x.Int? && x.value > rest then x.value else rest
  }

  /**
   The corrected sequencer: one past the numeric maximum of this year's
   sequences. The number it issues is new, carries this year's pattern, and
   its sequence exceeds every sequence of the year.
   */
  function NextNumber(numbers: seq<string>, year: nat): (r: string)
    ensures r !in numbers
    ensures HasPrefix(r, YearPrefix(year))
    ensures SequenceOf(r).Int? && SequenceOf(r).value >= 1
    ensures forall i :: (0 <= i < |numbers| && HasPrefix(numbers[i], YearPrefix(year))
              && SequenceOf(numbers[i]).Int?) ==> SequenceOf(numbers[i]).value < SequenceOf(r).value
  {
    var n := MaxSequence(numbers, year) + 1;
    SequenceOfOrderNumber(year, n);
    assert OrderNumber(year, Int(n))[..|YearPrefix(year)|] == YearPrefix(year);
    OrderNumber(year, Int(n))
  }

  /** The first number of a year without numbers is sequence 1, whatever other years hold. */
  lemma FirstOfYear(numbers: seq<string>, year: nat)
    requires forall i :: 0 <= i < |numbers| ==> !HasPrefix(numbers[i], YearPrefix(year))
    ensures NextNumber(numbers, year) == OrderNumber(year, Int(1))
  {
  }

  /** Appending a number of another year leaves a year's greatest sequence alone. */
  lemma MaxSequenceIgnoresOtherYear(numbers: seq<string>, x: string, year: nat)
    requires !HasPrefix(x, YearPrefix(year))
    ensures MaxSequence(numbers + [x], year) == MaxSequence(numbers, year)
  {
    var more := numbers + [x];
    var r1, r2 := MaxSequence(numbers, year), MaxSequence(more, year);
    if r1 != 0 {
      var i :| 0 <= i < |numbers| && HasPrefix(numbers[i], YearPrefix(year)) && SequenceOf(numbers[i]) == Int(r1);
      assert more[i] == numbers[i];
    }
    if r2 != 0 {
      var i :| 0 <= i < |more| && HasPrefix(more[i], YearPrefix(year)) && SequenceOf(more[i]) == Int(r2);
      assert i != |numbers|;
      assert more[i] == numbers[i];
    }
  }

  /** Issuing a number in one year leaves the sequencing of every other year alone. */
  lemma OtherYearsDoNotCount(numbers: seq<string>, y1: nat, k: nat, y2: nat)
    requires y1 != y2
    ensures NextNumber(numbers + [OrderNumber(y1, Int(k))], y2) == NextNumber(numbers, y2)
  {
    var x := OrderNumber(y1, Int(k));
    if HasPrefix(x, YearPrefix(y2)) {
      PrefixDeterminesYear(y1, Int(k), y2);
      assert false;
    }
    MaxSequenceIgnoresOtherYear(numbers, x, y2);
    NextNumberFollowsMax(numbers + [x], y2);
    NextNumberFollowsMax(numbers, y2);
  }

  lemma NextNumberFollowsMax(numbers: seq<string>, year: nat)
    ensures NextNumber(numbers, year) == OrderNumber(year, Int(MaxSequence(numbers, year) + 1))
  {
  }

  /** Every number matching `year`'s pattern is a formatted number with a sequence up to 9999. */
  predicate FourDigitYear(numbers: seq<string>, year: nat) {
    forall i :: 0 <= i < |numbers| && HasPrefix(numbers[i], YearPrefix(year)) ==>
      && SequenceOf(numbers[i]).Int?
      && SequenceOf(numbers[i]).value <= 9999
      && numbers[i] == OrderNumber(year, SequenceOf(numbers[i]))
  }

  /** Under `FourDigitYear`, the last number of the year carries the greatest sequence. */
  lemma LastOfYearHasMaxSequence(numbers: seq<string>, year: nat)
    requires FourDigitYear(numbers, year)
    requires LastOfYear(numbers, year).Some?
    ensures SequenceOf(LastOfYear(numbers, year).value) == Int(MaxSequence(numbers, year))
  {
    LastOfYearIsGreatest(numbers, year);
    var m := LastOfYear(numbers, year).value;
    var r := MaxSequence(numbers, year);
    var j :| 0 <= j < |numbers| && numbers[j] == m;
    var km := SequenceOf(m).value;
    assert km <= r;
    if km < r {
      var i :| 0 <= i < |numbers| && HasPrefix(numbers[i], YearPrefix(year)) && SequenceOf(numbers[i]) == Int(r);
      assert numbers[i] == OrderNumber(year, Int(r));
      assert m == OrderNumber(year, Int(km));
      OrderNumberLexOrder(year, r, km);
      LexIrreflexive(m);
      assert false;
    }
  }

  /** While every sequence of the year has four digits, the code as written issues the corrected number. */
  lemma AsWrittenAgreesBelow10000(numbers: seq<string>, year: nat)
    requires FourDigitYear(numbers, year)
    ensures NextNumberAsWritten(numbers, year) == NextNumber(numbers, year)
  {
    LastOfYearIsGreatest(numbers, year);
    var r := MaxSequence(numbers, year);
    if LastOfYear(numbers, year).None? {
      assert r == 0;
    } else {
      LastOfYearHasMaxSequence(numbers, year);
    }
    assert NextSequenceAsWritten(numbers, year) == Int(r + 1);
    assert NextNumber(numbers, year) == OrderNumber(year, Int(r + 1));
  }
}
