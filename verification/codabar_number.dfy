/**
 Library numbers in the Ameritech layout: a type digit (2 = patron,
 3 = item), the four-digit institution id, an eight-digit serial number and
 a mod-10 check digit, 14 digits in all.
 */
module CodabarNumber {
  import opened PhpStrings
  import opened Results

  /** The institution id, a process-wide constant. */
  const LibraryId: nat := 1310

  /** Bounds of the random serial number drawn when none is given. */
  const RandMin: nat := 100
  const RandMax: nat := 99999999

  /** PHP truthiness of a string: only "" and "0" are false. */
  predicate Falsy(sn: string) {
    sn == "" || sn == "0"
  }

  function Zeros(n: nat): (z: string)
    ensures |z| == n && forall i :: 0 <= i < n ==> z[i] == '0'
  {
    seq(n, _ => '0')
  }

  /** The padding `checkSerialNumber` performs: left-pad with '0' up to eight
      characters, leaving longer strings alone. */
  function LeftPad8(sn: string): (r: string)
    ensures |sn| <= 8 ==> |r| == 8 && r[8 - |sn|..] == sn
    ensures |sn| <= 8 ==> forall i :: 0 <= i < 8 - |sn| ==> r[i] == '0'
    ensures |sn| >= 8 ==> r == sn
  {
    if |sn| >= 8 then sn else Zeros(8 - |sn|) + sn
  }

  /** Padding is idempotent. */
  lemma LeftPad8Idempotent(sn: string)
    ensures LeftPad8(LeftPad8(sn)) == LeftPad8(sn)
  {
  }

  /** The serial number actually stored: a falsy input is replaced by the
      random draw `r`, then padded. */
  function SerialNumber(sn: string, r: nat): string {
    LeftPad8(if Falsy(sn) then DecimalString(r) else sn)
  }

  /** `checkSerialNumber`: the falsy test, the `8 - strlen` count, its zero test,
      and the loop that builds the prefix one '0' at a time. */
  method CheckSerialNumber(sn: string, r: nat) returns (padded: string)
    ensures padded == LeftPad8(if Falsy(sn) then DecimalString(r) else sn)
  {
    var s := sn;
    if Falsy(s) {
      s := DecimalString(r);
    }
    var count := 8 - |s|;
    if count == 0 {
      return s;
    }
    var prefix := "";
    var i := 0;
    while i < count
      invariant 0 <= i <= if count >= 0 then count else 0
      invariant prefix == Zeros(i)
    {
      prefix := prefix + "0";
      i := i + 1;
    }
    padded := prefix + s;
  }

  /** A falsy serial becomes the random draw, and any draw from the `rand`
      range pads to exactly eight digits ending with the draw. */
  lemma {:induction false} RandomSerialIsEightDigits(sn: string, r: nat)
    requires Falsy(sn) && RandMin <= r <= RandMax
    ensures |SerialNumber(sn, r)| == 8 && IsDigits(SerialNumber(sn, r))
    ensures SerialNumber(sn, r)[8 - |DecimalString(r)|..] == DecimalString(r)
    ensures DecimalValue(SerialNumber(sn, r)) == r
  {
    var d := DecimalString(r);
    assert |d| <= 8 by {
      DecimalLength(r, 8);
      PowEight();
    }
    var z := Zeros(8 - |d|);
    assert SerialNumber(sn, r) == z + d;
    ZerosPrefixValue(z, d);
    DecimalRoundTrip(r);
  }

  /** The bound on eight-digit numbers. */
  lemma PowEight()
    ensures Pow10(8) == RandMax + 1
  {
    calc {
      Pow10(8);
      10 * Pow10(7);
      100 * Pow10(6);
      1000 * Pow10(5);
      10000 * Pow10(4);
      100000 * Pow10(3);
      1000000 * Pow10(2);
      10000000 * Pow10(1);
    }
  }

  /** Leading zeros do not change the number a digit string denotes. */
  lemma {:induction false} ZerosPrefixValue(z: string, d: string)
    requires IsDigits(d) && forall i :: 0 <= i < |z| ==> z[i] == '0'
    ensures IsDigits(z + d) && DecimalValue(z + d) == DecimalValue(d)
    decreases |d|
  {
    if d == [] {
      assert z + d == z;
      AllZerosValue(z);
    } else {
      var d' := d[..|d| - 1];
      assert (z + d)[..|z + d| - 1] == z + d';
      ZerosPrefixValue(z, d');
    }
  }

  lemma {:induction false} AllZerosValue(z: string)
    requires forall i :: 0 <= i < |z| ==> z[i] == '0'
    ensures IsDigits(z) && DecimalValue(z) == 0
  {
    if z != [] {
      AllZerosValue(z[..|z| - 1]);
    }
  }

  /** Doubling step of the checksum: twice the digit, less 9 when two digits. */
  function Doubled(d: nat): (e: nat)
    requires d < 10
    ensures e < 10
  {
    if 2 * d >= 10 then 2 * d - 9 else 2 * d
  }

  /** Digits 0-4 double to the even digits, digits 5-9 to the odd ones. */
  lemma DoubledParity(d: nat)
    requires d < 10
    ensures Doubled(d) % 2 == 0 <==> d < 5
  {
  }

  /** The doubling step never maps two digits to the same digit, so on 0..9 it is a permutation. */
  lemma DoubledInjective(d: nat, e: nat)
    requires d < 10 && e < 10 && Doubled(d) == Doubled(e)
    ensures d == e
  {
  }

  /** Contribution of the digit `d` at 0-based position `i`: doubled at even
      positions, as is at odd ones. */
  function Weight(i: nat, d: nat): (w: nat)
    requires d < 10
    ensures w < 10
  {
    if i % 2 == 0 then Doubled(d) else d
  }

  lemma WeightInjective(i: nat, d: nat, e: nat)
    requires d < 10 && e < 10 && Weight(i, d) == Weight(i, e)
    ensures d == e
  {
    if i % 2 == 0 {
      DoubledInjective(d, e);
    }
  }

  /** The running total of the left-to-right scan over a digit string. */
  function WeightedTotal(s: string): nat
    requires IsDigits(s)
  {
    if s == [] then 0
    else WeightedTotal(s[..|s| - 1]) + Weight(|s| - 1, DigitValue(s[|s| - 1]))
  }

  /** The check digit for a total: 0 when the total is a multiple of ten,
      otherwise what is missing to the next multiple. */
  function CheckDigitFor(total: nat): (c: nat)
    ensures c < 10
    ensures c == 0 <==> total % 10 == 0
    ensures (total + c) % 10 == 0
  {
    var m := total % 10;
    if m == 0 then m else 10 - m
  }

  /** The check digit is the only digit that closes the total to a multiple of ten. */
  lemma CheckDigitUnique(total: nat, c: nat)
    requires c < 10 && (total + c) % 10 == 0
    ensures c == CheckDigitFor(total)
  {
  }

  /** `calculateCheckDigit`: the `foreach` scan over the digits with its running total. */
  method CalculateCheckDigit(digits: string) returns (check: nat)
    requires IsDigits(digits)
    ensures check == CheckDigitFor(WeightedTotal(digits))
  {
    var total := 0;
    var i := 0;
    while i < |digits|
      invariant 0 <= i <= |digits|
      invariant total == WeightedTotal(digits[..i])
    {
      var d := DigitValue(digits[i]);
      if i % 2 == 0 {
        d := d * 2;
        if d >= 10 {
          d := d - 9;
        }
        total := total + d;
      } else {
        total := total + d;
      }
      assert digits[..i + 1][..i] == digits[..i];
      i := i + 1;
    }
    assert digits[..i] == digits;
    var m := total % 10;
    check := if m == 0 then m else 10 - m;
  }

  /** Replacing the digit at position `k` shifts the total by the difference of the two weights. */
  lemma {:induction false} WeightedTotalUpdate(s: string, k: nat, c: char)
    requires IsDigits(s) && k < |s| && IsDigit(c)
    ensures IsDigits(s[k := c])
    ensures WeightedTotal(s[k := c]) + Weight(k, DigitValue(s[k]))
         == WeightedTotal(s) + Weight(k, DigitValue(c))
    decreases |s|
  {
    var t := s[k := c];
    var n := |s| - 1;
    if k == n {
      assert t[..n] == s[..n];
    } else {
      assert t[..n] == s[..n][k := c];
      WeightedTotalUpdate(s[..n], k, c);
    }
  }

  /** Changing any single digit of the checksummed string changes the check digit. */
  lemma SingleDigitChangeDetected(s: string, k: nat, c: char)
    requires IsDigits(s) && k < |s| && IsDigit(c) && c != s[k]
    ensures IsDigits(s[k := c])
    ensures CheckDigitFor(WeightedTotal(s[k := c])) != CheckDigitFor(WeightedTotal(s))
  {
    WeightedTotalUpdate(s, k, c);
    var a := Weight(k, DigitValue(s[k]));
    var b := Weight(k, DigitValue(c));
    if a == b {
      WeightInjective(k, DigitValue(s[k]), DigitValue(c));
    } else {
      ShiftChangesCheckDigit(WeightedTotal(s[k := c]), WeightedTotal(s), a, b);
    }
  }

  /** Two totals that differ by a non-zero amount below ten get different check digits. */
  lemma ShiftChangesCheckDigit(t: nat, u: nat, a: nat, b: nat)
    requires a < 10 && b < 10 && a != b && t + a == u + b
    ensures CheckDigitFor(t) != CheckDigitFor(u)
  {
    assert t % 10 != u % 10;
    var ct := CheckDigitFor(t);
    var cu := CheckDigitFor(u);
    assert (t + ct) % 10 == 0 && (u + cu) % 10 == 0;
  }

  /** A library number as the class holds it after construction. */
  datatype Number = Number(digit1: string, sn: string, checkDigit: nat)

  /** What every constructed number satisfies: digit strings and a matching check digit. */
  predicate Valid(n: Number) {
    && IsDigits(n.digit1) && IsDigits(n.sn)
    && n.checkDigit == CheckDigitFor(WeightedTotal(Payload(n)))
  }

  /** The 13 digits the check digit is computed over. */
  function Payload(n: Number): string {
    n.digit1 + DecimalString(LibraryId) + n.sn
  }

  /** The constructor: pad (or draw) the serial number, store the type, compute the check digit. */
  function NewNumber(sn: string, digit1: string, r: nat): (n: Number)
    requires IsDigits(sn) && IsDigits(digit1) && RandMin <= r <= RandMax
    ensures n.digit1 == digit1
    ensures n.sn == SerialNumber(sn, r) && IsDigits(n.sn)
    ensures Valid(n)
    ensures n.checkDigit < 10 && (WeightedTotal(Payload(n)) + n.checkDigit) % 10 == 0
  {
    var s := SerialNumber(sn, r);
    var p := digit1 + DecimalString(LibraryId) + s;
    Number(digit1, s, CheckDigitFor(WeightedTotal(p)))
  }

  /** Why construction fails: the checksum scan multiplies and adds every
      character, and PHP 8 raises a TypeError for a character that is not a
      decimal digit. */
  datatype NumberError = NonNumericDigit

  /** The constructor on arbitrary strings: it fails exactly when some scanned
      character is not a digit, and otherwise stores the type, the padded (or
      drawn) serial and the matching check digit. */
  function Construct(sn: string, digit1: string, r: nat): (res: Result<Number, NumberError>)
    requires RandMin <= r <= RandMax
    ensures var p := digit1 + "1310" + SerialNumber(sn, r);
      res.Err? <==> exists i :: 0 <= i < |p| && !IsDigit(p[i])
    ensures res.Ok? ==> res.value.digit1 == digit1 && res.value.sn == SerialNumber(sn, r)
    ensures res.Ok? ==> Valid(res.value)
  {
    ScannedDigits(sn, digit1, r);
    if IsDigits(digit1) && IsDigits(sn) then Ok(NewNumber(sn, digit1, r)) else Err(NonNumericDigit)
  }

  /** The scanned characters are all digits exactly when the type and the
      given serial are: padding adds only zeros and the random draw only digits. */
  lemma ScannedDigits(sn: string, digit1: string, r: nat)
    ensures IsDigits(digit1 + "1310" + SerialNumber(sn, r)) <==> IsDigits(digit1) && IsDigits(sn)
  {
    var s := if Falsy(sn) then DecimalString(r) else sn;
    assert IsDigits(s) <==> IsDigits(sn);
    if |s| < 8 {
      DigitsSplit(Zeros(8 - |s|), s);
    }
    DigitsSplit(digit1, "1310");
    DigitsSplit(digit1 + "1310", SerialNumber(sn, r));
  }

  /** A concatenation is a digit string exactly when both parts are. */
  lemma DigitsSplit(a: string, b: string)
    ensures IsDigits(a + b) <==> IsDigits(a) && IsDigits(b)
  {
    if IsDigits(a + b) {
      assert forall i :: 0 <= i < |a| ==> a[i] == (a + b)[i];
      assert forall j :: 0 <= j < |b| ==> b[j] == (a + b)[|a| + j];
    }
    if IsDigits(a) && IsDigits(b) {
      DigitsConcat(a, b);
    }
  }

  function GetDigit1(n: Number): string {
    n.digit1
  }

  function GetLibraryId(): nat {
    LibraryId
  }

  function GetSerialNumber(n: Number): string {
    n.sn
  }

  /** `getCodabar`: the payload followed by the check digit as PHP prints it. */
  function GetCodabar(n: Number): string {
    Payload(n) + DecimalString(n.checkDigit)
  }

  /** The institution id prints as the four digits "1310". */
  lemma LibraryIdDigits()
    ensures DecimalString(LibraryId) == "1310"
  {
    assert DecimalString(131) == DecimalString(13) + "1";
  }

  /** Scanning a string of odd length extended by its check digit, which lands
      on an odd 0-based position and so is added undoubled, gives a multiple of ten. */
  lemma ClosedTotal(p: string, c: nat)
    requires IsDigits(p) && |p| % 2 == 1 && c < 10 && (WeightedTotal(p) + c) % 10 == 0
    ensures IsDigits(p + [DigitChar(c)])
    ensures WeightedTotal(p + [DigitChar(c)]) % 10 == 0
  {
    var q := p + [DigitChar(c)];
    assert q[..|q| - 1] == p;
  }

  /** A serial of at most eight digits, or a random draw, is stored as exactly eight digits. */
  lemma {:induction false} SerialIsEightDigits(sn: string, r: nat)
    requires IsDigits(sn) && |sn| <= 8 && RandMin <= r <= RandMax
    ensures |SerialNumber(sn, r)| == 8 && IsDigits(SerialNumber(sn, r))
  {
    if Falsy(sn) {
      RandomSerialIsEightDigits(sn, r);
    } else {
      var z := Zeros(8 - |sn|);
      assert SerialNumber(sn, r) == z + sn;
    }
  }

  /** With a one-digit type and a serial of at most eight digits, `getCodabar`
      is 14 digits: the 13 checksummed digits, then the check digit, and the
      whole code scans to a multiple of ten. */
  lemma {:induction false} CodabarLayout(sn: string, digit1: string, r: nat)
    requires IsDigits(sn) && |sn| <= 8 && IsDigits(digit1) && |digit1| == 1
    requires RandMin <= r <= RandMax
    ensures |GetCodabar(NewNumber(sn, digit1, r))| == 14
    ensures GetCodabar(NewNumber(sn, digit1, r))[..13]
         == digit1 + "1310" + SerialNumber(sn, r)
    ensures GetCodabar(NewNumber(sn, digit1, r))[13]
         == DigitChar(NewNumber(sn, digit1, r).checkDigit)
    ensures IsDigits(GetCodabar(NewNumber(sn, digit1, r)))
    ensures WeightedTotal(GetCodabar(NewNumber(sn, digit1, r))) % 10 == 0
  {
    var n := NewNumber(sn, digit1, r);
    LibraryIdDigits();
    SerialIsEightDigits(sn, r);
    var p := Payload(n);
    assert |p| == 13;
    var q := p + [DigitChar(n.checkDigit)];
    assert GetCodabar(n) == q;
    assert q[..13] == p;
    ClosedTotal(p, n.checkDigit);
  }

  /** The scan of the example payload 2 1310 00010586 totals 26. */
  lemma ExamplePayloadTotal()
    ensures IsDigits("2" + "1310" + "00010586")
    ensures WeightedTotal("2" + "1310" + "00010586") == 26
  {
    ExampleBlocksTotal();
    assert "2131" + "0000" + "1058" + "6" == "2" + "1310" + "00010586";
  }

  /** The payload cut after an even number of digits each time: 12 + 0 + 11 + 3. */
  lemma ExampleBlocksTotal()
    ensures IsDigits("2131" + "0000" + "1058" + "6")
    ensures WeightedTotal("2131" + "0000" + "1058" + "6") == 26
  {
    var a, b, c, d := "2131", "0000", "1058", "6";
    TotalOfFour(a);
    TotalOfFour(b);
    TotalOfFour(c);
    assert WeightedTotal(d) == 3;
    WeightedTotalEvenSplit(a, b);
    WeightedTotalEvenSplit(a + b, c);
    WeightedTotalEvenSplit(a + b + c, d);
  }

  /** Appending after an even number of digits keeps every later digit's
      weight, so the totals add up. */
  lemma {:induction false} WeightedTotalEvenSplit(a: string, b: string)
    requires IsDigits(a) && IsDigits(b) && |a| % 2 == 0
    ensures IsDigits(a + b)
    ensures WeightedTotal(a + b) == WeightedTotal(a) + WeightedTotal(b)
    decreases |b|
  {
    var ab := a + b;
    DigitsConcat(a, b);
    if b == [] {
      assert ab == a;
    } else {
      var b' := b[..|b| - 1];
      var d := DigitValue(b[|b| - 1]);
      WeightedTotalEvenSplit(a, b');
      calc {
        WeightedTotal(ab);
      == { assert ab[..|ab| - 1] == a + b'; assert ab[|ab| - 1] == b[|b| - 1]; }
        WeightedTotal(a + b') + Weight(|ab| - 1, d);
      == { EvenShift(|a|, |b| - 1); SameParitySameWeight(|ab| - 1, |b| - 1, d); }
        WeightedTotal(a) + WeightedTotal(b') + Weight(|b| - 1, d);
      }
    }
  }

  /** A digit's weight depends only on the parity of its position. */
  lemma SameParitySameWeight(i: nat, j: nat, d: nat)
    requires d < 10 && i % 2 == j % 2
    ensures Weight(i, d) == Weight(j, d)
  {
  }

  /** Two digit strings concatenate to a digit string. */
  lemma DigitsConcat(a: string, b: string)
    requires IsDigits(a) && IsDigits(b)
    ensures IsDigits(a + b)
  {
    forall i | 0 <= i < |a + b|
      ensures IsDigit((a + b)[i])
    {
      if i >= |a| {
        assert (a + b)[i] == b[i - |a|];
      }
    }
  }

  /** The total of four digits, unfolded. */
  lemma TotalOfFour(s: string)
    requires |s| == 4 && IsDigits(s)
    ensures WeightedTotal(s) == Weight(0, DigitValue(s[0])) + Weight(1, DigitValue(s[1]))
                              + Weight(2, DigitValue(s[2])) + Weight(3, DigitValue(s[3]))
  {
    assert s[..0] == [];
    WeightedTotalStep(s, 0);
    WeightedTotalStep(s, 1);
    WeightedTotalStep(s, 2);
    WeightedTotalStep(s, 3);
    assert s[..4] == s;
  }

  /** One more digit adds its weight at its position. */
  lemma WeightedTotalStep(s: string, k: nat)
    requires IsDigits(s) && k < |s|
    ensures WeightedTotal(s[..k + 1]) == WeightedTotal(s[..k]) + Weight(k, DigitValue(s[k]))
  {
    assert s[..k + 1][..k] == s[..k];
  }

  /** Shifting a position by an even amount keeps its parity. */
  lemma EvenShift(x: nat, y: nat)
    requires x % 2 == 0
    ensures (x + y) % 2 == y % 2
  {
    assert x == 2 * (x / 2);
  }

  /** Type 2 and serial 10586: serial "00010586", code "21310000105864". */
  lemma WorkedExample(r: nat)
    requires RandMin <= r <= RandMax
    ensures NewNumber("10586", "2", r).sn == "00010586"
    ensures GetCodabar(NewNumber("10586", "2", r)) == "2" + "1310" + "00010586" + "4"
  {
    ExampleSerial(r);
    LibraryIdDigits();
    ExamplePayloadTotal();
    assert DecimalString(4) == "4";
  }

  /** "10586" is padded to "00010586" whatever the random draw. */
  lemma ExampleSerial(r: nat)
    ensures SerialNumber("10586", r) == "00010586"
  {
    assert Zeros(3) == "000";
  }

  /** `getCheckDigit` as written: the method evaluates the field but has no
      `return`, so every call yields null. */
  function GetCheckDigitAsWritten(n: Number): (r: Option<nat>)
    ensures r.None?
  {
    None
  }

  /** The accessor as evidently intended: it returns the stored check digit,
      which closes the payload's total to a multiple of ten. */
  function GetCheckDigit(n: Number): (c: nat)
    requires Valid(n)
    ensures c < 10 && (WeightedTotal(Payload(n)) + c) % 10 == 0
  {
    n.checkDigit
  }

  /** The as-written accessor never yields the digit the corrected one returns. */
  lemma CheckDigitAccessorLosesDigit(n: Number)
    requires Valid(n)
    ensures GetCheckDigitAsWritten(n) != Some(GetCheckDigit(n))
  {
  }
}
