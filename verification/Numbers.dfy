/** strconv.Itoa and strconv.ParseInt / Atoi with Go's 64-bit range check. */
module Numbers {
  import opened Bytes

  const MAX_INT64: int := 0x7FFF_FFFF_FFFF_FFFF

  /** The two bases the wire code parses in. */
  datatype Base = Ten | Sixteen

  /** The value of one digit, as strconv reads it: 0-9, then letters in either case. */
  function DigitValue(b: byte): int {
    if 48 <= b <= 57 then b as int - 48
    else if 97 <= b <= 122 then b as int - 87
    else if 65 <= b <= 90 then b as int - 55
    else 255
  }

  predicate IsDigits(s: bytes, base: Base) {
    forall i :: 0 <= i < |s| ==> DigitValue(s[i]) < (if base.Ten? then 10 else 16)
  }

  function DigitsValue(s: bytes, base: Base): (v: nat)
    requires IsDigits(s, base)
  {
    if s == [] then 0
    else
      var high := DigitsValue(s[..|s| - 1], base);
      (if base.Ten? then high * 10 else high * 16) + DigitValue(s[|s| - 1])
  }

  /** strconv.ParseInt(s, base, 64). */
  function ParseInt(s: bytes, base: Base): (r: Option<int>) {
    if s == [] then None
    else
      var digits := if s[0] == 43 || s[0] == 45 then s[1..] else s;
      if digits == [] || !IsDigits(digits, base) then None
      else InRange(s[0] == 45, DigitsValue(digits, base))
  }

  /** The signed value, or Go's range error. */
  function InRange(negative: bool, magnitude: int): Option<int> {
    if negative then (if magnitude > MAX_INT64 + 1 then None else Some(-magnitude))
    else if magnitude > MAX_INT64 then None
    else Some(magnitude)
  }

  function Atoi(s: bytes): Option<int> {
    ParseInt(s, Ten)
  }

  function Digit(d: nat): byte
    requires d < 10
  {
    (48 + d) as byte
  }

  /** strconv.Itoa for the lengths and counts the writers print. */
  function Itoa(n: nat): (s: bytes)
    ensures s != []
    ensures forall b :: b in s ==> 48 <= b <= 57
  {
    if n < 10 then [Digit(n)] else Itoa(n / 10) + [Digit(n % 10)]
  }

  lemma {:induction false} DigitsOfItoa(n: nat)
    ensures IsDigits(Itoa(n), Ten) && DigitsValue(Itoa(n), Ten) == n
  {
    if n < 10 {
      assert Itoa(n) == [Digit(n)];
      assert Itoa(n)[..0] == [];
    } else {
      DigitsOfItoa(n / 10);
      var s := Itoa(n);
      assert s[..|s| - 1] == Itoa(n / 10);
      assert s[|s| - 1] == Digit(n % 10);
    }
  }

  /** Printing a length and parsing it back gives the length, as long as it is a Go int. */
  lemma AtoiItoa(n: nat)
    requires n <= MAX_INT64
    ensures Atoi(Itoa(n)) == Some(n)
  {
    DigitsOfItoa(n);
    assert Itoa(n)[0] in Itoa(n);
  }

  lemma SignedDigits(digits: bytes)
    requires digits != [] && IsDigits(digits, Ten)
    ensures ParseInt([45] + digits, Ten) == InRange(true, DigitsValue(digits, Ten))
    ensures ParseInt([43] + digits, Ten) == InRange(false, DigitsValue(digits, Ten))
    ensures digits[0] != 43 && digits[0] != 45 && ParseInt(digits, Ten) == InRange(false, DigitsValue(digits, Ten))
  {
    hide DigitsValue;
    assert DigitValue(digits[0]) < 10;
    assert ([45] + digits)[1..] == digits && ([43] + digits)[1..] == digits;
  }

  /** A sign before the digits, and the range of a Go int64: -2^63 is the least value and 2^63 - 1 the greatest. */
  lemma SignedParse(n: int)
    requires n >= 0
    ensures ParseInt([45] + Itoa(n), Ten) == if n <= 0x8000_0000_0000_0000 then Some(-n) else None
    ensures ParseInt([43] + Itoa(n), Ten) == if n < 0x8000_0000_0000_0000 then Some(n) else None
    ensures ParseInt(Itoa(n), Ten) == if n < 0x8000_0000_0000_0000 then Some(n) else None
  {
    hide Itoa, ParseInt, DigitsValue, IsDigits;
    DigitsOfItoa(n);
    SignedDigits(Itoa(n));
  }

  /** Nothing but digits behind one optional sign is a number. */
  lemma ParseRejects(s: bytes, i: nat)
    requires i < |s| && !(48 <= s[i] <= 57) && (i > 0 || (s[0] != 43 && s[0] != 45) || |s| == 1)
    ensures ParseInt(s, Ten) == None
  {
    var digits := if s[0] == 43 || s[0] == 45 then s[1..] else s;
    if digits != [] {
      var k := if s[0] == 43 || s[0] == 45 then i - 1 else i;
      assert digits[k] == s[i] && DigitValue(digits[k]) >= 10;
    }
  }

  const HEX: bytes := Ascii("0123456789abcdef")
  const UPPER_HEX: bytes := Ascii("0123456789ABCDEF")

  /** A number in hexadecimal digits of either case. */
  function Hex(n: nat, digits: bytes): (s: bytes)
    requires |digits| == 16
    ensures s != []
  {
    if n < 16 then [digits[n]] else Hex(n / 16, digits) + [digits[n % 16]]
  }

  lemma HexDigits(d: nat)
    requires d < 16
    ensures DigitValue(HEX[d]) == DigitValue(UPPER_HEX[d]) == d
  {
    assert HEX[d] as int == (if d < 10 then 48 + d else 87 + d);
    assert UPPER_HEX[d] as int == (if d < 10 then 48 + d else 55 + d);
  }

  /** Printing a number in hexadecimal and reading it back gives the number. */
  lemma {:induction false} DigitsOfHex(n: nat, digits: bytes)
    requires digits == HEX || digits == UPPER_HEX
    ensures IsDigits(Hex(n, digits), Sixteen) && DigitsValue(Hex(n, digits), Sixteen) == n
  {
    hide DigitValue;
    HexDigits(n % 16);
    var s := Hex(n, digits);
    if n < 16 {
      assert s == [digits[n]] && s[..0] == [];
    } else {
      DigitsOfHex(n / 16, digits);
      assert s[..|s| - 1] == Hex(n / 16, digits) && s[|s| - 1] == digits[n % 16];
    }
  }

  /** Every text Atoi accepts consists of visible characters only. */
  lemma AtoiVisible(s: bytes)
    requires Atoi(s).Some?
    ensures forall b :: b in s ==> !IsSpace(b)
    ensures s != []
  {
    forall i | 0 <= i < |s| ensures !IsSpace(s[i]) {
      if i > 0 && (s[0] == 43 || s[0] == 45) {
        assert s[1..][i - 1] == s[i];
        assert DigitValue(s[1..][i - 1]) < 10;
      }
    }
  }
}
