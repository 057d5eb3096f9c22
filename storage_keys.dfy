/**
 * How the controller names a stored image: the millisecond timestamp rendered
 * as Java renders a `long` in string concatenation, then "_", then the
 * uploaded file's original name, kept verbatim (no sanitisation).
 */
module StorageKeys {

  import opened Wrappers

  predicate IsDigit(c: char) {
    '0' <= c <= '9'
  }

  predicate IsDigits(s: string) {
    forall i :: 0 <= i < |s| ==> IsDigit(s[i])
  }

  function DigitChar(d: nat): (c: char)
    requires d < 10
    ensures IsDigit(c)
  {
    ('0' as int + d) as char
  }

  function DigitValue(c: char): (d: nat)
    requires IsDigit(c)
    ensures d < 10 && DigitChar(d) == c
  {
    c as int - '0' as int
  }

  /** Decimal digits of a non-negative number, most significant first, no leading zeros. */
  function Digits(n: nat): (s: string)
    ensures 1 <= |s| && IsDigits(s)
    ensures |s| > 1 ==> s[0] != '0'
  {
    if n < 10 then [DigitChar(n)] else Digits(n / 10) + [DigitChar(n % 10)]
  }

  /** Value of a non-empty string of decimal digits. */
  function ParseDigits(s: string): nat
    requires 1 <= |s| && IsDigits(s)
  {
    if |s| == 1 then DigitValue(s[0])
    else 10 * ParseDigits(s[..|s| - 1]) + DigitValue(s[|s| - 1])
  }

  /** `Long.toString(n)`: a minus sign for negative values, then the digits of |n|. */
  function Decimal(n: int): (s: string)
    ensures 1 <= |s| && '_' !in s
  {
    if n < 0 then "-" + Digits(-n) else Digits(n)
  }

  /** Reads back what Decimal writes; None for anything that is not an optional minus and digits. */
  function ParseDecimal(s: string): Option<int> {
    if 2 <= |s| && s[0] == '-' && IsDigits(s[1..]) then
      var magnitude: int := ParseDigits(s[1..]);
      Some(-magnitude)
    else if 1 <= |s| && IsDigits(s) then Some(ParseDigits(s))
    else None
  }

  lemma {:induction false} DigitsRoundTrip(n: nat)
    ensures ParseDigits(Digits(n)) == n
  {
    if n >= 10 {
      var s := Digits(n);
      assert s[..|s| - 1] == Digits(n / 10);
      DigitsRoundTrip(n / 10);
    }
  }

  lemma DecimalRoundTrip(n: int)
    ensures ParseDecimal(Decimal(n)) == Some(n)
  {
    var s := Decimal(n);
    if n < 0 {
      assert s[0] == '-' && s[1..] == Digits(-n);
      DigitsRoundTrip(-n);
    } else {
      assert s == Digits(n) && IsDigit(s[0]);
      DigitsRoundTrip(n);
    }
  }

  /** Position of the first `c` in `s`, or |s| when there is none. */
  function FirstIndexOf(s: string, c: char): (i: nat)
    ensures i <= |s|
    ensures i < |s| ==> s[i] == c
    ensures forall j :: 0 <= j < i ==> s[j] != c
  {
    if |s| == 0 then 0
    else if s[0] == c then 0
    else 1 + FirstIndexOf(s[1..], c)
  }

  /** The storage key built at ProductsController.java lines 61 and 136. */
  function StorageKey(millis: int, fileName: string): (key: string)
    ensures |key| == |Decimal(millis)| + 1 + |fileName|
    ensures key[|key| - |fileName|..] == fileName
    ensures SplitKey(key) == Some((millis, fileName))
  {
    var key := Decimal(millis) + "_" + fileName;
    SplitStorageKey(millis, fileName);
    key
  }

  /** Splits a key at its first "_" into the timestamp and the original file name. */
  function SplitKey(key: string): Option<(int, string)> {
    var i := FirstIndexOf(key, '_');
    if i == |key| then None
    else match ParseDecimal(key[..i])
      case None => None
      case Some(millis) => Some((millis, key[i + 1..]))
  }

  lemma SplitStorageKey(millis: int, fileName: string)
    ensures SplitKey(Decimal(millis) + "_" + fileName) == Some((millis, fileName))
  {
    var d := Decimal(millis);
    var key := d + "_" + fileName;
    assert key[|d|] == '_';
    assert forall j :: 0 <= j < |d| ==> key[j] == d[j];
    assert FirstIndexOf(key, '_') == |d|;
    assert key[..|d|] == d;
    assert key[|d| + 1..] == fileName;
    DecimalRoundTrip(millis);
  }

  /** Two keys are equal exactly when they were built from the same timestamp and the same name. */
  lemma StorageKeyInjective(millis1: int, name1: string, millis2: int, name2: string)
    ensures StorageKey(millis1, name1) == StorageKey(millis2, name2) <==> millis1 == millis2 && name1 == name2
  {
  }
}
