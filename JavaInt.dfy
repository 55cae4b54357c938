/**
 Java's 32-bit `int`: the range, the wrap-around of `+`, the saturating
 narrowing of an integral `double`, and `Integer.parseInt` in radix 10.
 */
module JavaInt {
  import opened Optional

  const MinInt: int := -0x8000_0000
  const MaxInt: int := 0x7FFF_FFFF
  const Modulus: int := 0x1_0000_0000

  /** A Java `int`. */
  newtype Int32 = x: int | -0x8000_0000 <= x < 0x8000_0000

  /** Two's-complement wrap-around: the `int` Java's `+` yields for the exact sum `x`. */
  function Wrap32(x: int): (r: Int32)
    ensures (r as int - x) % Modulus == 0
  {
    var m := (x - MinInt) % Modulus;
    assert x - MinInt == Modulus * ((x - MinInt) / Modulus) + m;
    (m + MinInt) as Int32
  }

  /** Wrapping is the identity on values already in range. */
  lemma WrapInRange(x: int)
    requires MinInt <= x <= MaxInt
    ensures Wrap32(x) as int == x
  {
    assert (x - MinInt) % Modulus == x - MinInt;
  }

  /** `Integer::sum` applied to an already wrapped total gives the wrap of the exact total. */
  lemma WrapAdd(a: int, b: int)
    ensures Wrap32(Wrap32(a) as int + b) == Wrap32(a + b)
  {
    var k := (a - MinInt) / Modulus;
    assert Wrap32(a) as int == a - Modulus * k;
    ModShift(a + b - MinInt, k);
  }

  lemma ModShift(x: int, k: int)
    ensures (x - Modulus * k) % Modulus == x % Modulus
  {
    var q := x / Modulus;
    var r := x % Modulus;
    assert x - Modulus * k == Modulus * (q - k) + r;
  }

  function Distance(a: int, b: int): nat {
    if a <= b then b - a else a - b
  }

  /** The `(int)` cast of a `double` that holds the integral value `x`: Java saturates at the bounds, giving the `int` nearest to `x`. */
  function Clamp32(x: int): (r: Int32)
    ensures forall y :: MinInt <= y <= MaxInt ==> Distance(r as int, x) <= Distance(y, x)
  {
    if x > MaxInt then MaxInt as Int32
    else if x < MinInt then MinInt as Int32
    else x as Int32
  }

  predicate IsDigit(c: char) {
    '0' <= c <= '9'
  }

  predicate AllDigits(s: string) {
    forall i :: 0 <= i < |s| ==> IsDigit(s[i])
  }

  /** The value of a string of decimal digits, most significant first. */
  function DigitsValue(s: string): (n: nat)
    requires AllDigits(s)
  {
    if s == [] then 0
    else DigitsValue(s[..|s| - 1]) * 10 + (s[|s| - 1] as int - '0' as int)
  }

  /**
   `Integer.parseInt(s)`: an optional `+` or `-`, then one or more decimal
   digits, whose value must lie in the `int` range; anything else is a
   `NumberFormatException`, written `None`.
   */
  function ParseInt(s: string): (r: Option<Int32>)
    ensures r.Some? ==> |s| > 0
    ensures r.Some? && s[0] == '-' ==> r.value <= 0
    ensures r.Some? && s[0] != '-' ==> r.value >= 0
  {
    if |s| == 0 then None
    else
      var signed := s[0] == '-' || s[0] == '+';
      var digits := if signed then s[1..] else s;
      if |digits| == 0 || !AllDigits(digits) then None
      else
        var magnitude := DigitsValue(digits);
        var n: int := if s[0] == '-' then -(magnitude as int) else magnitude;
        if MinInt <= n <= MaxInt then Some(n as Int32) else None
  }

  /** Decimal rendering of a natural number, with no leading zeros. */
  function ShowNat(n: nat): (s: string)
    decreases n
  {
    if n < 10 then ['0' + n as char]
    else ShowNat(n / 10) + ['0' + (n % 10) as char]
  }

  /** `Integer.toString(n)`. */
  function ShowInt(n: Int32): string {
    if n < 0 then "-" + ShowNat(-(n as int)) else ShowNat(n as nat)
  }

  lemma {:induction false} ShowNatDigits(n: nat)
    ensures |ShowNat(n)| > 0 && AllDigits(ShowNat(n))
    ensures DigitsValue(ShowNat(n)) == n
    ensures IsDigit(ShowNat(n)[0])
    decreases n
  {
    if n >= 10 {
      ShowNatDigits(n / 10);
      var s := ShowNat(n);
      assert s[..|s| - 1] == ShowNat(n / 10);
    }
  }

  /** `Integer.parseInt` reads back every `int` that `Integer.toString` writes. */
  lemma ParseShowRoundTrip(n: Int32)
    ensures ParseInt(ShowInt(n)) == Some(n)
  {
    if n < 0 {
      var m: nat := -(n as int);
      ShowNatDigits(m);
      assert ShowInt(n)[1..] == ShowNat(m);
    } else {
      ShowNatDigits(n as nat);
    }
  }

  /** A value `Integer.parseInt` accepts from a string of digits is exactly its decimal value. */
  lemma ParseDigits(s: string)
    requires |s| > 0 && AllDigits(s)
    ensures ParseInt(s) == (if DigitsValue(s) <= MaxInt then Some(DigitsValue(s) as Int32) else None)
  {
    assert IsDigit(s[0]);
  }

  /** Strings `Integer.parseInt` rejects: empty, a lone sign, a leading blank, a letter. */
  lemma ParseIntRejects()
    ensures ParseInt("") == None
    ensures ParseInt("-") == None && ParseInt("+") == None
    ensures ParseInt(" 7") == None && ParseInt("7 ") == None
    ensures ParseInt("abc") == None && ParseInt("1.5") == None
  {
    assert !IsDigit("7 "[1]);
    assert !IsDigit("1.5"[1]);
  }

  /** Sign and leading-zero cases of `Integer.parseInt`. */
  lemma ParseIntAccepts()
    ensures ParseInt("7") == Some(7) && ParseInt("+7") == Some(7) && ParseInt("-7") == Some(-7)
    ensures ParseInt("007") == Some(7)
  {
    assert DigitsValue("7") == 7 by {
      assert "7"[..0] == "";
    }
    assert "+7"[1..] == "7" && "-7"[1..] == "7";
    assert DigitsValue("007") == 7 by {
      assert "007"[..2] == "00";
      assert "00"[..1] == "0";
      assert "0"[..0] == "";
    }
  }

  lemma DigitsAppend(s: string, c: char)
    requires AllDigits(s) && IsDigit(c)
    ensures AllDigits(s + [c])
    ensures DigitsValue(s + [c]) == DigitsValue(s) * 10 + (c as int - '0' as int)
  {
    assert (s + [c])[..|s|] == s;
  }

  lemma DigitsOfMax()
    ensures AllDigits("2147483647") && DigitsValue("2147483647") == 2147483647
  {
    assert "2"[..0] == "";
    assert "21" == "2" + ['1'];
    DigitsAppend("2", '1');
    assert "214" == "21" + ['4'];
    DigitsAppend("21", '4');
    assert "2147" == "214" + ['7'];
    DigitsAppend("214", '7');
    assert "21474" == "2147" + ['4'];
    DigitsAppend("2147", '4');
    assert "214748" == "21474" + ['8'];
    DigitsAppend("21474", '8');
    assert "2147483" == "214748" + ['3'];
    DigitsAppend("214748", '3');
    assert "21474836" == "2147483" + ['6'];
    DigitsAppend("2147483", '6');
    assert "214748364" == "21474836" + ['4'];
    DigitsAppend("21474836", '4');
    assert "2147483647" == "214748364" + ['7'];
    DigitsAppend("214748364", '7');
  }

  lemma DigitsPastMax()
    ensures AllDigits("2147483648") && DigitsValue("2147483648") == 2147483648
  {
    assert "2"[..0] == "";
    assert "21" == "2" + ['1'];
    DigitsAppend("2", '1');
    assert "214" == "21" + ['4'];
    DigitsAppend("21", '4');
    assert "2147" == "214" + ['7'];
    DigitsAppend("214", '7');
    assert "21474" == "2147" + ['4'];
    DigitsAppend("2147", '4');
    assert "214748" == "21474" + ['8'];
    DigitsAppend("21474", '8');
    assert "2147483" == "214748" + ['3'];
    DigitsAppend("214748", '3');
    assert "21474836" == "2147483" + ['6'];
    DigitsAppend("2147483", '6');
    assert "214748364" == "21474836" + ['4'];
    DigitsAppend("21474836", '4');
    assert "2147483648" == "214748364" + ['8'];
    DigitsAppend("214748364", '8');
  }

  /** `Integer.parseInt` accepts both ends of the `int` range and rejects digits just past it. */
  lemma ParseIntBounds()
    ensures ParseInt("2147483647") == Some(0x7FFF_FFFF)
    ensures ParseInt("-2147483648") == Some(-0x8000_0000)
    ensures ParseInt("2147483648") == None
  {
    assert ParseInt("2147483647") == Some(0x7FFF_FFFF) by {
      DigitsOfMax();
      assert "2147483647"[0] == '2';
    }
    assert ParseInt("-2147483648") == Some(-0x8000_0000) by {
      DigitsPastMax();
      assert "-2147483648"[0] == '-';
      assert "-2147483648"[1..] == "2147483648";
    }
    assert ParseInt("2147483648") == None by {
      DigitsPastMax();
      assert "2147483648"[0] == '2';
    }
  }
}
