/**
 * get_key: the text of the key field is read as an integer and accepted
 * only when it lies in [0, 255]; anything else is rejected with no key.
 * Integer reading is a decimal literal with an optional sign.
 */
module KeyEntry {
  import opened Wrappers
  import opened PixelCodec

  predicate IsDigit(c: char)
  {
    '0' <= c <= '9'
  }

  predicate AllDigits(s: string)
  {
    forall i :: 0 <= i < |s| ==> IsDigit(s[i])
  }

  function DigitValue(c: char): nat
    requires IsDigit(c)
  {
    (c as int) - ('0' as int)
  }

  /** The value of a string of decimal digits, most significant first. */
  function DigitsValue(s: string): nat
    requires AllDigits(s)
  {
    if s == [] then 0 else 10 * DigitsValue(s[..|s| - 1]) + DigitValue(s[|s| - 1])
  }

  /** A decimal integer literal: an optional sign followed by at least one digit. */
  predicate IsIntegerLiteral(s: string)
  {
    if |s| > 0 && (s[0] == '-' || s[0] == '+') then |s| > 1 && AllDigits(s[1..])
    else |s| > 0 && AllDigits(s)
  }

  /** Reads a decimal integer; None where reading the text as an integer fails. */
  function ParseInt(s: string): (r: Option<int>)
    ensures r.Some? <==> IsIntegerLiteral(s)
  {
    if |s| > 0 && (s[0] == '-' || s[0] == '+') then
      if |s| > 1 && AllDigits(s[1..]) then
        var magnitude: int := DigitsValue(s[1..]);
        Some(if s[0] == '-' then -magnitude else magnitude)
      else None
    else if |s| > 0 && AllDigits(s) then Some(DigitsValue(s))
    else None
  }

  /** The key typed into the key field, or None when it is not an integer in [0, 255]. */
  function GetKey(entry: string): (key: Option<Byte>)
    ensures key.Some? <==> ParseInt(entry).Some? && 0 <= ParseInt(entry).value <= 255
    ensures key.Some? ==> key.value == ParseInt(entry).value
  {
    match ParseInt(entry)
    case Some(k) => if 0 <= k <= 255 then Some(k) else None
    case None => None
  }

  function DigitChar(d: nat): (c: char)
    requires d < 10
    ensures IsDigit(c) && DigitValue(c) == d
  {
    ('0' as int + d) as char
  }

  /** The decimal spelling of a natural number, without leading zeros. */
  function NatToDecimal(n: nat): (s: string)
    ensures |s| > 0 && AllDigits(s)
  {
    if n < 10 then [DigitChar(n)] else NatToDecimal(n / 10) + [DigitChar(n % 10)]
  }

  /** The decimal spelling of an integer, with a leading '-' when it is negative. */
  function IntToDecimal(i: int): string
  {
    if i < 0 then "-" + NatToDecimal(-i) else NatToDecimal(i)
  }

  lemma {:induction false} DigitsValueOfDecimal(n: nat)
    ensures DigitsValue(NatToDecimal(n)) == n
  {
    if n >= 10 {
      var s := NatToDecimal(n);
      assert s[..|s| - 1] == NatToDecimal(n / 10);
      DigitsValueOfDecimal(n / 10);
    }
  }

  /** Reading back the decimal spelling of any integer gives that integer. */
  lemma ParseIntOfDecimal(i: int)
    ensures ParseInt(IntToDecimal(i)) == Some(i)
  {
    if i < 0 {
      var s := IntToDecimal(i);
      assert s[1..] == NatToDecimal(-i);
      DigitsValueOfDecimal(-i);
    } else {
      DigitsValueOfDecimal(i);
    }
  }

  /** An integer typed in decimal is accepted exactly when it lies in [0, 255]; -1 and 256 are rejected. */
  lemma GetKeyOfInteger(k: int)
    ensures GetKey(IntToDecimal(k)) == if 0 <= k <= 255 then Some(k) else None
  {
    ParseIntOfDecimal(k);
  }

  /**
   * Text with a character that is neither a digit nor a leading sign is
   * rejected. (This is the plain decimal reading: Python's int() also
   * accepts surrounding whitespace and underscores between digits.)
   */
  lemma GetKeyRejectsNonNumeric(entry: string, i: nat)
    requires i < |entry| && !IsDigit(entry[i])
    requires i > 0 || (entry[0] != '-' && entry[0] != '+')
    ensures GetKey(entry) == None
  {
    if |entry| > 0 && (entry[0] == '-' || entry[0] == '+') {
      assert !IsDigit(entry[1..][i - 1]);
    } else {
      assert !IsDigit(entry[i]);
    }
  }

  /** An empty key field is rejected. */
  lemma GetKeyRejectsEmpty()
    ensures GetKey("") == None
  {
  }

  /** A leading zero does not change the value of a digit string. */
  lemma {:induction false} DigitsValueLeadingZero(s: string)
    requires AllDigits(s)
    ensures AllDigits("0" + s) && DigitsValue("0" + s) == DigitsValue(s)
  {
    var t := "0" + s;
    assert forall i :: 0 < i < |t| ==> t[i] == s[i - 1];
    if s != [] {
      assert t[..|t| - 1] == "0" + s[..|s| - 1];
      DigitsValueLeadingZero(s[..|s| - 1]);
    }
  }

  /** Leading zeros and a '+' sign do not change the integer read: "007" is 7 and "+255" is 255. */
  lemma ParseIntLeadingZeroAndPlus(s: string)
    requires |s| > 0 && AllDigits(s)
    ensures ParseInt("0" + s) == ParseInt(s)
    ensures ParseInt("+" + s) == ParseInt(s)
  {
    DigitsValueLeadingZero(s);
    assert ("+" + s)[1..] == s;
  }
}
