/** Phone numbers compared by their digits. */
module Phones {

  function Digits(number: string): string {
    if number == "" then ""
    else if '0' <= number[0] <= '9' then [number[0]] + Digits(number[1..])
    else Digits(number[1..])
  }

  /** The last seven digits, or all of them when there are fewer. */
  function LastDigits(number: string): string {
    var clean := Digits(number);
    if |clean| >= 7 then clean[|clean| - 7..] else clean
  }

  predicate IsGeorgianMobile(number: string) {
    var digits := Digits(number);
    var subscriber := if "995" <= digits then digits[3..] else digits;
    |subscriber| == 9 && subscriber[0] == '5'
  }

  lemma DigitsOfOne(c: char)
    ensures Digits([c]) == if '0' <= c <= '9' then [c] else ""
  {
    assert [c][1..] == "";
  }

  /** Each character counts for itself: digits are kept in order, and nothing else is. */
  lemma {:induction false} DigitsAreKept(number: string, c: char)
    ensures Digits(number + [c]) == Digits(number) + if '0' <= c <= '9' then [c] else ""
  {
    if number == "" {
      assert number + [c] == [c];
      DigitsOfOne(c);
    } else {
      DigitsAreKept(number[1..], c);
      assert (number + [c])[1..] == number[1..] + [c];
    }
  }

  /** Seven digits at most, and they end the number. */
  lemma LastDigitsEndTheNumber(number: string)
    ensures var last, all := LastDigits(number), Digits(number);
            |last| <= |all| && last == all[|all| - |last|..] && |last| == if |all| < 7 then |all| else 7
  {
  }

  /** Nine digits from 5, with the country's code in front or not. */
  lemma GeorgianMobilesAre(number: string)
    ensures IsGeorgianMobile(number) <==>
              var d := Digits(number);
              (|d| == 9 && d[0] == '5') || (|d| == 12 && d[..3] == "995" && d[3] == '5')
  {
    var d := Digits(number);
    if |d| == 9 && d[0] == '5' {
      assert "995"[0] != d[0];
    }
  }
}
