/**
  The check digit of a card number: Annex B of ISO/IEC 7812-1.
 */
module CardNumber {
  import opened Wrappers

  type Digit = d: int | 0 <= d < 10

  /** What `int` makes of one character: the digits of every script, or an error. */
  type Numeral = char -> Option<Digit>

  /** The digits of a text; `None` if some character is not one. */
  function Digits(numeral: Numeral, text: string): Option<seq<Digit>>
    decreases |text|
  {
    if text == [] then Some([])
    else
      var rest, last := Digits(numeral, text[..|text| - 1]), numeral(text[|text| - 1]);
      if rest.None? || last.None? then None else Some(rest.value + [last.value])
  }

  /** Twice a digit, its own digits summed. */
  function Doubled(d: Digit): (r: Digit)
    ensures 2 * d == (if d < 5 then r else 9 + r)
  {
    if d < 5 then 2 * d else 2 * d - 9
  }

  function Weighed(d: Digit, double: bool): Digit { if double then Doubled(d) else d }

  /** The sum from the right, every second digit doubled; `double` is whether the last one is. */
  function LuhnSum(digits: seq<Digit>, double: bool): nat
    decreases |digits|
  {
    if digits == [] then 0
    else LuhnSum(digits[..|digits| - 1], !double) + Weighed(digits[|digits| - 1], double)
  }

  predicate Accepted(digits: seq<Digit>) { LuhnSum(digits, false) % 10 == 0 }

  // ---------------------------------------------------------------- the check as it is computed

  /** The slice that takes every second digit, from the last one back. */
  function EverySecond(digits: seq<Digit>): seq<Digit>
    decreases |digits|
  {
    if digits == [] then [] else [digits[|digits| - 1]] + EverySecond(if |digits| > 1 then digits[..|digits| - 2] else [])
  }

  function Butlast(digits: seq<Digit>): seq<Digit> { if digits == [] then [] else digits[..|digits| - 1] }

  function Total(digits: seq<Digit>, double: bool): nat
    decreases |digits|
  {
    if digits == [] then 0 else Weighed(digits[0], double) + Total(digits[1..], double)
  }

  lemma {:induction false} TotalAppend(digits: seq<Digit>, d: Digit, double: bool)
    ensures Total(digits + [d], double) == Total(digits, double) + Weighed(d, double)
    decreases |digits|
  {
    if digits == [] {
      assert [d][1..] == [] && digits + [d] == [d];
    } else {
      TotalAppend(digits[1..], d, double);
      assert (digits + [d])[1..] == digits[1..] + [d];
    }
  }

  /** The two slices together hold every digit once. */
  lemma {:induction false} SlicesAddUp(digits: seq<Digit>, double: bool)
    ensures LuhnSum(digits, double) == Total(EverySecond(digits), double) + Total(EverySecond(Butlast(digits)), !double)
    decreases |digits|
  {
    if digits != [] {
      var init := Butlast(digits);
      SlicesAddUp(init, !double);
      assert |digits| > 1 ==> Butlast(init) == digits[..|digits| - 2];
      assert EverySecond(digits) == [digits[|digits| - 1]] + EverySecond(Butlast(init));
      assert EverySecond(digits)[1..] == EverySecond(Butlast(init));
    }
  }

  /** `validate_card`; `None` is the error for a character that is not a digit. */
  method ValidateCard(numeral: Numeral, text: string) returns (r: Option<bool>)
    ensures r == if Digits(numeral, text).None? then None else Some(Accepted(Digits(numeral, text).value))
  {
    var digits := DigitsOf(numeral, text);
    if digits.None? {
      return None;
    }
    var odd, even := EverySecond(digits.value), EverySecond(Butlast(digits.value));
    var single := Sum(odd, false);
    var double := Sum(even, true);
    SlicesAddUp(digits.value, false);
    r := Some((single + double) % 10 == 0);
  }

  method DigitsOf(numeral: Numeral, text: string) returns (r: Option<seq<Digit>>)
    ensures r == Digits(numeral, text)
  {
    var digits: seq<Digit> := [];
    for i := 0 to |text|
      invariant Digits(numeral, text[..i]) == Some(digits)
    {
      var d := numeral(text[i]);
      assert text[..i + 1][..i] == text[..i];
      if d.None? {
        NotADigit(numeral, text, i);
        return None;
      }
      digits := digits + [d.value];
    }
    assert text[..|text|] == text;
    r := Some(digits);
  }

  /** The loop over one slice: each digit, or the digits of its double. */
  method Sum(slice: seq<Digit>, double: bool) returns (checksum: nat)
    ensures checksum == Total(slice, double)
  {
    checksum := 0;
    for i := 0 to |slice|
      invariant checksum == Total(slice[..i], double)
    {
      assert slice[..i + 1] == slice[..i] + [slice[i]];
      TotalAppend(slice[..i], slice[i], double);
      var d: nat := slice[i];
      if double { d := d * 2; }
      checksum := checksum + (if d < 10 then d else d / 10 + d % 10);
    }
    assert slice[..|slice|] == slice;
  }

  lemma {:induction false} NotADigit(numeral: Numeral, text: string, i: nat)
    requires i < |text| && numeral(text[i]).None?
    ensures Digits(numeral, text).None?
    decreases |text|
  {
    if i < |text| - 1 { NotADigit(numeral, text[..|text| - 1], i); }
  }

  // ---------------------------------------------------------------- what it detects

  /** Whether a place counts double. */
  predicate Doubles(length: nat, double: bool, i: nat)
    requires i < length
  {
    ((length - 1 - i) % 2 == 0) == double
  }

  lemma {:induction false} OneDigitWeighs(digits: seq<Digit>, double: bool, i: nat, d: Digit)
    requires i < |digits|
    ensures LuhnSum(digits[i := d], double) - LuhnSum(digits, double)
            == Weighed(d, Doubles(|digits|, double, i)) - Weighed(digits[i], Doubles(|digits|, double, i))
    decreases |digits|
  {
    var n := |digits| - 1;
    if i < n {
      OneDigitWeighs(digits[..n], !double, i, d);
      assert digits[i := d][..n] == digits[..n][i := d];
    } else {
      assert digits[i := d][..n] == digits[..n];
    }
  }

  /** Any change of one digit is noticed. */
  lemma {:induction false} OneDigitIsNoticed(digits: seq<Digit>, i: nat, d: Digit)
    requires Accepted(digits) && i < |digits|
    ensures Accepted(digits[i := d]) <==> d == digits[i]
  {
    hide LuhnSum;
    var w := Doubles(|digits|, false, i);
    OneDigitWeighs(digits, false, i, d);
    Weighings(d, digits[i]);
    Shift(LuhnSum(digits, false), Weighed(d, w) - Weighed(digits[i], w));
  }

  lemma {:induction false} Shift(sum: int, change: int)
    requires sum % 10 == 0
    ensures (sum + change) % 10 == 0 <==> change % 10 == 0
  {
  }

  lemma {:induction false} Weighings(a: Digit, b: Digit)
    ensures a != b ==> Doubled(a) != Doubled(b)
    ensures a != b ==> ((Doubled(a) + b - Doubled(b) - a) % 10 == 0 <==> (a == 0 && b == 9) || (a == 9 && b == 0))
  {
  }

  /** Exchanging two neighbours is noticed, unless they are the same or a 0 and a 9. */
  lemma {:induction false} ExchangeIsNoticed(digits: seq<Digit>, i: nat)
    requires Accepted(digits) && i + 1 < |digits|
    ensures var a, b := digits[i], digits[i + 1];
            Accepted(digits[i := b][i + 1 := a]) <==> a == b || (a == 0 && b == 9) || (a == 9 && b == 0)
  {
    var a, b := digits[i], digits[i + 1];
    hide LuhnSum, Doubled;
    ExchangeWeighs(digits, i);
    Weighings(a, b);
    Weighings(b, a);
    Shift(LuhnSum(digits, false), Doubled(b) + a - Doubled(a) - b);
    Shift(LuhnSum(digits, false), Doubled(a) + b - Doubled(b) - a);
  }

  lemma {:induction false} ExchangeWeighs(digits: seq<Digit>, i: nat)
    requires i + 1 < |digits|
    ensures var a, b := digits[i], digits[i + 1];
            var change := LuhnSum(digits[i := b][i + 1 := a], false) - LuhnSum(digits, false);
            change == Doubled(b) + a - Doubled(a) - b || change == Doubled(a) + b - Doubled(b) - a
  {
    hide LuhnSum, Doubled, Doubles;
    NeighboursDiffer(|digits|, i);
    OneDigitWeighs(digits, false, i, digits[i + 1]);
    OneDigitWeighs(digits[i := digits[i + 1]], false, i + 1, digits[i]);
  }

  lemma {:induction false} NeighboursDiffer(length: nat, i: nat)
    requires i + 1 < length
    ensures Doubles(length, false, i) != Doubles(length, false, i + 1)
  {
  }
}
