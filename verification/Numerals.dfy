/** Reading an unsigned number from the front of a string, as the C++ standard library's `stoul` and `stoull` do. */
module Numerals {
  import opened Options

  const LONG := 0x1_0000_0000_0000_0000

  /** The value of a digit of the given base. */
  function DigitOf(c: char, base: nat): (r: Option<nat>)
    requires base == 10 || base == 16
    ensures r.Some? ==> r.value < base
  {
    if '0' <= c <= '9' then Some((c - '0') as nat)
    else if base == 16 && 'a' <= c <= 'f' then Some((c - 'a') as nat + 10)
    else if base == 16 && 'A' <= c <= 'F' then Some((c - 'A') as nat + 10)
    else None
  }

  predicate AllDigits(s: string, base: nat)
    requires base == 10 || base == 16
  {
    forall i :: 0 <= i < |s| ==> DigitOf(s[i], base).Some?
  }

  /** The number written by the digits of `s`. */
  function Value(s: string, base: nat): (r: nat)
    requires base == 10 || base == 16
  {
    if s == [] then 0
    else
      var digit := DigitOf(s[|s| - 1], base);
      Value(s[..|s| - 1], base) * base + if digit.Some? then digit.value else 0
  }

  /** The place of the first character from `k` on that is not a digit. */
  function DigitsEnd(s: string, k: nat, base: nat): (n: nat)
    requires (base == 10 || base == 16) && k <= |s|
    ensures k <= n <= |s|
    decreases |s| - k
  {
    if k == |s| || DigitOf(s[k], base).None? then k else DigitsEnd(s, k + 1, base)
  }

  predicate IsSpace(c: char) { c == ' ' || 0x09 as char <= c <= 0x0d as char }

  function SpacesEnd(s: string, k: nat): (n: nat)
    requires k <= |s|
    ensures k <= n <= |s|
    decreases |s| - k
  {
    if k == |s| || !IsSpace(s[k]) then k else SpacesEnd(s, k + 1)
  }

  predicate HasHexPrefix(s: string, k: nat) {
    k + 3 <= |s| && s[k] == '0' && (s[k + 1] == 'x' || s[k + 1] == 'X') && DigitOf(s[k + 2], 16).Some?
  }

  /** What a read ends in: an exception for a missing or too large number, or the value and the characters used. */
  datatype Number = NoDigits | TooBig | Number(value: nat, used: nat)

  function Read(s: string, base: nat): (r: Number)
    requires base == 10 || base == 16
    ensures r.Number? ==> 0 < r.used <= |s| && r.value < LONG
  {
    var i := SpacesEnd(s, 0);
    var negative := i < |s| && s[i] == '-';
    var j := if negative || (i < |s| && s[i] == '+') then i + 1 else i;
    var k := if base == 16 && HasHexPrefix(s, j) then j + 2 else j;
    var n := DigitsEnd(s, k, base);
    if n == k then NoDigits
    else
      var v := Value(s[k..n], base);
      if v >= LONG then TooBig else Number(if negative && v > 0 then LONG - v else v, n)
  }

  lemma {:induction false} DigitsEndAt(s: string, k: nat, base: nat, n: nat)
    requires (base == 10 || base == 16) && k <= n <= |s|
    requires (forall i :: k <= i < n ==> DigitOf(s[i], base).Some?) && (n < |s| ==> DigitOf(s[n], base).None?)
    ensures DigitsEnd(s, k, base) == n
    decreases n - k
  {
    if k < n { DigitsEndAt(s, k + 1, base, n); }
  }

  /** A string that starts with a digit is read as its leading run of digits. */
  lemma {:induction false} ReadDigits(s: string, base: nat, n: nat)
    requires (base == 10 || base == 16) && 0 < n <= |s|
    requires AllDigits(s[..n], base) && (n < |s| ==> DigitOf(s[n], base).None?)
    requires base == 16 ==> n == |s|
    ensures Read(s, base) == if Value(s[..n], base) >= LONG then TooBig else Number(Value(s[..n], base), n)
  {
    forall i | 0 <= i < n ensures DigitOf(s[i], base).Some? {
      assert s[..n][i] == s[i];
    }
    assert SpacesEnd(s, 0) == 0 && s[0] != '-' && s[0] != '+';
    assert s[0..n] == s[..n];
    DigitsEndAt(s, 0, base, n);
  }

  /** The digit with the given value, in lower case. */
  function HexDigit(v: nat): (c: char)
    requires v < 16
    ensures DigitOf(c, 16) == Some(v) && (v < 10 ==> DigitOf(c, 10) == Some(v)) && !('A' <= c <= 'F')
  {
    if v < 10 then '0' + v as char else 'a' + (v - 10) as char
  }

  /** The usual way to write a number. */
  function Numeral(n: nat, base: nat): (s: string)
    requires base == 10 || base == 16
    ensures s != "" && AllDigits(s, base)
  {
    if n < base then [HexDigit(n)] else Numeral(n / base, base) + [HexDigit(n % base)]
  }

  /** A number written in the usual way has that value. */
  lemma {:induction false} NumeralValue(n: nat, base: nat)
    requires base == 10 || base == 16
    ensures Value(Numeral(n, base), base) == n
  {
    if n < base {
      ValueSnoc("", HexDigit(n), base);
      assert "" + [HexDigit(n)] == [HexDigit(n)];
    } else {
      NumeralValue(n / base, base);
      ValueSnoc(Numeral(n / base, base), HexDigit(n % base), base);
      assert n / 10 * 10 + n % 10 == n && n / 16 * 16 + n % 16 == n;
    }
  }

  lemma {:induction false} ValueSnoc(s: string, c: char, base: nat)
    requires (base == 10 || base == 16) && AllDigits(s, base) && DigitOf(c, base).Some?
    ensures AllDigits(s + [c], base) && Value(s + [c], base) == Value(s, base) * base + DigitOf(c, base).value
  {
    assert (s + [c])[..|s|] == s;
  }

  lemma {:induction false} SpacesEndAt(s: string, k: nat, n: nat)
    requires k <= n <= |s| && (forall i :: k <= i < n ==> IsSpace(s[i])) && (n < |s| ==> !IsSpace(s[n]))
    ensures SpacesEnd(s, k) == n
    decreases n - k
  {
    if k < n { SpacesEndAt(s, k + 1, n); }
  }

  /**
    Leading spaces and one sign are skipped, the digits that follow are read, and a minus sign negates in
    64 bits; without a digit there, nothing is read.
   */
  lemma {:induction false} ReadWritten(s: string, spaces: nat, sign: nat, n: nat)
    requires spaces + sign + n <= |s| && sign <= 1
    requires forall i :: 0 <= i < spaces ==> IsSpace(s[i])
    requires sign == 1 ==> s[spaces] == '-' || s[spaces] == '+'
    requires sign == 0 && n == 0 && spaces < |s| ==> !IsSpace(s[spaces]) && s[spaces] != '-' && s[spaces] != '+'
    requires forall i :: spaces + sign <= i < spaces + sign + n ==> DigitOf(s[i], 10).Some?
    requires spaces + sign + n < |s| ==> DigitOf(s[spaces + sign + n], 10).None?
    ensures var v := Value(s[spaces + sign..spaces + sign + n], 10);
            Read(s, 10)
            == if n == 0 then NoDigits
               else if v >= LONG then TooBig
               else Number(if sign == 1 && s[spaces] == '-' then (LONG - v) % LONG else v, spaces + sign + n)
  {
    SpacesEndAt(s, 0, spaces);
    DigitsEndAt(s, spaces + sign, 10, spaces + sign + n);
  }
}
