/**
 * The members of the Arduino `String` class (and the C library routines behind
 * them) that the firmware relies on. The library itself is not part of this
 * model: each function below states the behaviour ASSUMED of it, following the
 * ESP32 Arduino core (indexOf via strstr, substring with unsigned arguments,
 * trim with C `isspace`, toInt via newlib `atol`, String(value, base) via
 * itoa/utoa, toUpperCase via `toupper`). Strings are modelled as NUL-free.
 */
module ArduinoString {

  /** Range of a 32-bit C `long` (ESP32); `toInt` saturates to it like `strtol`. */
  const LongMax: int := 0x7FFF_FFFF
  const LongMin: int := -0x8000_0000
  /** Number of values of a 32-bit `unsigned int`. */
  const UnsignedRange: int := 0x1_0000_0000

  /**
   * A response body held in an Arduino `String`: its positions fit the C `int`
   * variables the firmware keeps them in.
   */
  type Text = s: string | |s| < 0x8000_0000

  /** C `isspace` in the "C" locale. */
  predicate IsSpace(c: char) {
    c == ' ' || c == '\t' || c == '\n' || c == '\U{000B}' || c == '\U{000C}' || c == '\r'
  }

  predicate IsDigit(c: char) {
    '0' <= c <= '9'
  }

  /** `p` occurs in `s` starting at position `i`. */
  predicate OccursAt(s: string, p: string, i: int) {
    0 <= i && i + |p| <= |s| && s[i..i + |p|] == p
  }

  /**
   * `s.indexOf(p, from)`: the first position at or after `from` where `p`
   * occurs, or -1 when there is none or `from` is not a position of `s`.
   */
  function IndexOf(s: string, p: string, from: nat): (r: int)
    ensures r == -1 || (from <= r < |s| && OccursAt(s, p, r))
    ensures r != -1 ==> forall j :: from <= j < r ==> !OccursAt(s, p, j)
    ensures r == -1 && from < |s| ==> forall j :: from <= j ==> !OccursAt(s, p, j)
    decreases |s| - from
  {
    if from >= |s| then -1
    else if OccursAt(s, p, from) then from
    else IndexOf(s, p, from + 1)
  }

  /** The C conversion of an `int` argument to `unsigned int`. */
  function ToUnsigned(x: int): nat {
    x % UnsignedRange
  }

  /**
   * `s.substring(left, right)`: both arguments are `unsigned int`; they are
   * swapped when out of order, a start at or past the end gives "", and the end
   * is clamped to the length.
   */
  function Substring(s: string, left: int, right: int): (r: string)
    ensures |r| <= |s|
  {
    var a := ToUnsigned(left);
    var b := ToUnsigned(right);
    var lo := if a <= b then a else b;
    var hi := if a <= b then b else a;
    if lo >= |s| then "" else s[lo..if hi <= |s| then hi else |s|]
  }

  /** `s.trim()`, first half: drops the leading white space. */
  function TrimLeft(s: string): (r: string)
    ensures |r| <= |s| && r == s[|s| - |r|..]
    ensures forall i :: 0 <= i < |s| - |r| ==> IsSpace(s[i])
    ensures r == [] || !IsSpace(r[0])
  {
    if |s| > 0 && IsSpace(s[0]) then TrimLeft(s[1..]) else s
  }

  /** `s.trim()`, second half: drops the trailing white space. */
  function TrimRight(s: string): (r: string)
    ensures |r| <= |s| && r == s[..|r|]
    ensures forall i :: |r| <= i < |s| ==> IsSpace(s[i])
    ensures r == [] || !IsSpace(r[|r| - 1])
  {
    if |s| > 0 && IsSpace(s[|s| - 1]) then TrimRight(s[..|s| - 1]) else s
  }

  /** `s.trim()`: leading white space first, then trailing. */
  function Trim(s: string): (r: string)
    ensures |r| <= |s|
    ensures |r| == |s| ==> r == s
    ensures r == [] || (!IsSpace(r[0]) && !IsSpace(r[|r| - 1]))
  {
    TrimRight(TrimLeft(s))
  }

  /** `s.startsWith(p)`. */
  predicate StartsWith(s: string, p: string) {
    |p| <= |s| && s[..|p|] == p
  }

  /** C `toupper` in the "C" locale. */
  function UpperChar(c: char): char {
    if 'a' <= c <= 'z' then (c as int - 32) as char else c
  }

  /** `s.toUpperCase()`. */
  function ToUpperCase(s: string): (r: string)
    ensures |r| == |s| && forall i :: 0 <= i < |s| ==> r[i] == UpperChar(s[i])
  {
    seq(|s|, i requires 0 <= i < |s| => UpperChar(s[i]))
  }

  /** The digit character itoa/utoa writes for `d` (lower-case letters past 9). */
  function DigitChar(d: nat): char
    requires d < 36
  {
    if d < 10 then ('0' as int + d) as char else ('a' as int + d - 10) as char
  }

  /** utoa: `n` in base `base`, no leading zeros, "0" for zero. */
  function UnsignedText(n: nat, base: nat): (r: string)
    requires 2 <= base <= 36
    ensures |r| >= 1
    decreases n
  {
    if n < base then [DigitChar(n)]
    else
      DivModBase(n, base);
      UnsignedText(n / base, base) + [DigitChar(n % base)]
  }

  lemma DivModBase(n: nat, base: nat)
    requires 2 <= base <= n
    ensures n / base < n && n % base < base
  {
  }

  /** `String(n)` for an `int`: itoa in base 10, with a minus sign when negative. */
  function IntText(n: int): string {
    if n < 0 then "-" + UnsignedText(-n, 10) else UnsignedText(n, 10)
  }

  /** `String(b, HEX)` for a byte value: lower-case hexadecimal, no padding. */
  function HexText(b: nat): string {
    UnsignedText(b, 16)
  }

  /** Number of decimal digits at the start of `s`. */
  function DigitRun(s: string): (n: nat)
    ensures n <= |s|
    ensures forall i :: 0 <= i < n ==> IsDigit(s[i])
    ensures n < |s| ==> !IsDigit(s[n])
  {
    if |s| > 0 && IsDigit(s[0]) then 1 + DigitRun(s[1..]) else 0
  }

  function DigitValue(c: char): nat {
    if IsDigit(c) then c as int - '0' as int else 0
  }

  /** The value of a string of decimal digits, most significant first. */
  function DecimalValue(ds: string): nat {
    if ds == [] then 0 else 10 * DecimalValue(ds[..|ds| - 1]) + DigitValue(ds[|ds| - 1])
  }

  /** After the leading white space, `s` starts with digits, or with a sign and then a digit. */
  predicate LeadsWithNumber(s: string) {
    var t := TrimLeft(s);
    (|t| > 0 && IsDigit(t[0])) || (|t| > 1 && (t[0] == '-' || t[0] == '+') && IsDigit(t[1]))
  }

  /** What `strtol` reads before saturating: white space, an optional sign, digits. */
  function Atol(s: string): int {
    var t := TrimLeft(s);
    if |t| > 0 && (t[0] == '-' || t[0] == '+') then
      var m: int := DecimalValue(t[1..][..DigitRun(t[1..])]);
      if t[0] == '-' then -m else m
    else
      DecimalValue(t[..DigitRun(t)])
  }

  /** `s.toInt()`: newlib `atol`, i.e. `strtol` in base 10, saturating to a 32-bit `long`. */
  function ToInt(s: string): (r: int)
    ensures LongMin <= r <= LongMax
    ensures !LeadsWithNumber(s) ==> r == 0
  {
    var v := Atol(s);
    if v > LongMax then LongMax else if v < LongMin then LongMin else v
  }

  // ---------------------------------------------------------------------
  // Facts about the primitives that the firmware's call sites rely on.
  // ---------------------------------------------------------------------

  /**
   * `r` is the part of `s` from `from` up to the first `c` after it, or up to
   * the end of `s` when no `c` follows.
   */
  predicate UpTo(s: string, from: nat, r: string, c: char) {
    && from + |r| <= |s| && r == s[from..from + |r|]
    && c !in r
    && (from + |r| == |s| || s[from + |r|] == c)
  }

  /** There is only one text up to the next `c`. */
  lemma UpToUnique(s: string, from: nat, r: string, t: string, c: char)
    requires UpTo(s, from, r, c) && UpTo(s, from, t, c)
    ensures r == t
  {
  }

  lemma OccursAtChar(s: string, c: char, j: int)
    ensures OccursAt(s, [c], j) <==> 0 <= j < |s| && s[j] == c
  {
    if 0 <= j < |s| {
      assert s[j..j + 1] == [s[j]];
    }
  }

  /** `substring(a, b)` from a position of the string: the slice, its end clamped to the length. */
  lemma SubstringClamp(s: string, a: nat, b: nat)
    requires a <= |s| && a <= b < UnsignedRange
    ensures Substring(s, a, b) == s[a..if b <= |s| then b else |s|]
  {
  }

  /** indexOf found no `c` from `from` on: there is none in that part of `s`. */
  lemma NoCharFrom(s: string, c: char, from: nat)
    requires from <= |s| && IndexOf(s, [c], from) == -1
    ensures c !in s[from..]
  {
    forall k | from <= k < |s| ensures s[k] != c {
      OccursAtChar(s, c, k);
    }
  }

  /**
   * `s.substring(from, s.indexOf(c, from))` is the text from `from` up to the
   * next `c`, or up to the end of `s` when no `c` follows (the -1 that indexOf
   * returns becomes the largest `unsigned int`).
   */
  lemma SubstringToNext(s: Text, from: nat, c: char)
    requires from <= |s|
    ensures UpTo(s, from, Substring(s, from, IndexOf(s, [c], from)), c)
  {
    var e := IndexOf(s, [c], from);
    if e == -1 {
      SubstringToEnd(s, from);
      NoCharFrom(s, c, from);
    } else {
      SubstringClamp(s, from, e);
      OccursAtChar(s, c, e);
      forall k | from <= k < e ensures s[k] != c {
        OccursAtChar(s, c, k);
      }
    }
  }

  /** `substring(from, -1)`: the -1 becomes the largest `unsigned int`, so the text runs to the end. */
  lemma SubstringToEnd(s: Text, from: nat)
    requires from <= |s|
    ensures Substring(s, from, -1) == s[from..]
  {
    assert ToUnsigned(-1) == UnsignedRange - 1;
  }

  /** A string with white space at neither end is its own trim. */
  lemma TrimNoSpace(s: string)
    requires s != [] && !IsSpace(s[0]) && !IsSpace(s[|s| - 1])
    ensures Trim(s) == s
  {
  }

  /** Digits only: the prefix read by atol is the whole string. */
  lemma DigitRunAll(ds: string)
    requires forall i :: 0 <= i < |ds| ==> IsDigit(ds[i])
    ensures DigitRun(ds) == |ds|
  {
  }

  lemma DecimalValueSnoc(ds: string, c: char)
    ensures DecimalValue(ds + [c]) == 10 * DecimalValue(ds) + DigitValue(c)
  {
    assert (ds + [c])[..|ds|] == ds;
  }

  lemma {:induction false} UnsignedTextDecimal(n: nat)
    ensures forall i :: 0 <= i < |UnsignedText(n, 10)| ==> IsDigit(UnsignedText(n, 10)[i])
    ensures DecimalValue(UnsignedText(n, 10)) == n
    decreases n
  {
    if n >= 10 {
      UnsignedTextDecimal(n / 10);
      DecimalValueSnoc(UnsignedText(n / 10, 10), DigitChar(n % 10));
    }
  }

  /** A string that does not start with white space is its own left trim. */
  lemma TrimLeftNoSpace(s: string)
    requires s != [] && !IsSpace(s[0])
    ensures TrimLeft(s) == s
  {
  }

  /**
   * A string that starts with `n` digits followed by a non-digit (or the end)
   * reads as the value of those digits: `toInt` stops at the first non-digit.
   */
  lemma ToIntOfDigitPrefix(s: string, n: nat)
    requires 0 < n <= |s| && forall i :: 0 <= i < n ==> IsDigit(s[i])
    requires n == |s| || !IsDigit(s[n])
    requires DecimalValue(s[..n]) <= LongMax
    ensures ToInt(s) == DecimalValue(s[..n])
  {
    AtolOfDigitPrefix(s, n);
  }

  lemma AtolOfDigitPrefix(s: string, n: nat)
    requires 0 < n <= |s| && forall i :: 0 <= i < n ==> IsDigit(s[i])
    requires n == |s| || !IsDigit(s[n])
    ensures Atol(s) == DecimalValue(s[..n])
  {
    TrimLeftNoSpace(s);
  }

  lemma AtolOfNegatedDigits(ds: string)
    requires ds != [] && forall i :: 0 <= i < |ds| ==> IsDigit(ds[i])
    ensures Atol("-" + ds) == 0 - DecimalValue(ds)
  {
    var t := "-" + ds;
    TrimLeftNoSpace(t);
    DigitRunAll(ds);
    assert t[1..][..DigitRun(t[1..])] == ds by {
      assert t[1..] == ds;
    }
  }

  /** A minus sign followed by digits only reads as the negated value of the digits. */
  lemma ToIntOfNegatedDigits(ds: string)
    requires ds != [] && forall i :: 0 <= i < |ds| ==> IsDigit(ds[i])
    requires DecimalValue(ds) <= -LongMin
    ensures ToInt("-" + ds) == 0 - DecimalValue(ds)
  {
    AtolOfNegatedDigits(ds);
  }

  /**
   * `String(n).toInt() == n` for every 32-bit `long`: the decimal text that
   * `String(int)` writes is read back by `toInt`.
   */
  lemma ToIntOfIntText(n: int)
    requires LongMin <= n <= LongMax
    ensures ToInt(IntText(n)) == n
  {
    var m := if n < 0 then -n else n;
    var ds := UnsignedText(m, 10);
    UnsignedTextDecimal(m);
    if n < 0 {
      ToIntOfNegatedDigits(ds);
    } else {
      assert ds[..|ds|] == ds;
      ToIntOfDigitPrefix(ds, |ds|);
    }
  }

  /** The one-character text after a marker: a digit reads as its value, anything else as 0. */
  lemma ToIntOfChar(c: char)
    ensures ToInt([c]) == DigitValue(c)
  {
    if IsSpace(c) {
      assert TrimLeft([c]) == TrimLeft([c][1..]);
      assert [c][1..] == [];
    } else {
      assert TrimLeft([c]) == [c];
      if IsDigit(c) {
        assert DigitRun([c]) == 1;
        assert [c][..1] == [c];
        assert DecimalValue([c]) == 10 * DecimalValue([]) + DigitValue(c);
      } else if c == '-' || c == '+' {
        assert [c][1..] == [];
      } else {
        assert DigitRun([c]) == 0;
      }
    }
  }

  /** The text of a single decimal digit value. */
  lemma IntTextOfDigit(d: nat)
    requires d < 10
    ensures IntText(d) == [DigitChar(d)]
  {
  }

  /**
   * A message whose trimmed form is exactly "1" also reads as 1 with `toInt`:
   * `atol` skips the same leading white space and stops at the trailing one.
   */
  lemma ToIntOfTrimmedOne(s: string)
    requires Trim(s) == "1"
    ensures ToInt(s) == 1
  {
    var t := TrimLeft(s);
    assert TrimRight(t) == "1";
    assert t[0] == '1';
    assert t[..1] == "1";
    if |t| > 1 {
      assert IsSpace(t[1]);
    }
    assert DigitRun(t) == 1;
    assert DecimalValue("1") == 10 * DecimalValue([]) + DigitValue('1');
    assert Atol(s) == 1;
  }
}
