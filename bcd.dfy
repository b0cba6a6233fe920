/** The decimal digits `LdBVx` stores (src/interpreter.rs:283-292): the
    loop divides by ten until nothing is left, so the digits come out least
    significant first and the value 0 yields no digit at all. */
module Bcd {
  import opened Primitive

  /** The digits the loop produces for `v`, in the order it writes them. */
  function Digits(v: nat): seq<u8>
    decreases v
  {
    if v == 0 then [] else [v % 10] + Digits(v / 10)
  }

  /** The number a little-endian run of decimal digits stands for. */
  function Value(digits: seq<u8>): nat {
    if digits == [] then 0 else digits[0] + 10 * Value(digits[1..])
  }

  /** The digits of `v` are decimal digits, they stand for `v`, and the most
      significant one written is not zero. */
  lemma {:induction false} DigitsValue(v: nat)
    ensures forall j :: 0 <= j < |Digits(v)| ==> Digits(v)[j] < 10
    ensures Value(Digits(v)) == v
    ensures v == 0 <==> Digits(v) == []
    ensures v > 0 ==> Digits(v)[|Digits(v)| - 1] != 0
  {
    if v > 0 {
      DigitsValue(v / 10);
      assert Digits(v)[1..] == Digits(v / 10);
    }
  }

  /** A byte has at most three decimal digits: one below 10, two below 100,
      three from 100 on. */
  lemma {:induction false} DigitsLength(v: nat)
    requires v < 0x100
    ensures |Digits(v)| == (if v == 0 then 0 else if v < 10 then 1 else if v < 100 then 2 else 3)
  {
    if v > 0 {
      var q := v / 10;
      assert Digits(v) == [v % 10] + Digits(q);
      if q > 0 {
        var q2 := q / 10;
        assert Digits(q) == [q % 10] + Digits(q2);
        if q2 > 0 {
          assert q2 / 10 == 0;
          assert Digits(q2) == [q2 % 10];
        }
      }
    }
  }
}
