/**
 * Byte-string helpers of Go's standard library that the ledger code relies on:
 * `%d` / `%0Nd` formatting, byte-wise string comparison, `strings.Join`,
 * `strconv.ParseInt` in base 10 and the UTF-8 encoding done by `string(rune)`.
 *
 * A Go `string` is a sequence of bytes; here it is a `string` whose characters
 * each stand for one byte, so `|s|` is Go's `len(s)`.
 */
module Text {
  import opened Wrappers

  predicate IsDigit(c: char) {
    '0' <= c <= '9'
  }

  predicate AllDigits(s: string) {
    forall i :: 0 <= i < |s| ==> IsDigit(s[i])
  }

  function DigitChar(d: nat): (c: char)
    requires d < 10
    ensures IsDigit(c) && c as int - '0' as int == d
  {
    ('0' as int + d) as char
  }

  /** The numeric value of a string of decimal digits (the empty string is 0). */
  function ValueOf(s: string): nat
    requires AllDigits(s)
  {
    if s == [] then 0 else ValueOf(s[..|s| - 1]) * 10 + (s[|s| - 1] as int - '0' as int)
  }

  /** `fmt.Sprintf("%d", n)` for n >= 0: the shortest decimal digits of n. */
  function Digits(n: nat): (s: string)
    ensures 1 <= |s|
    ensures n < 10 ==> |s| == 1
    ensures 10 <= n < 100 ==> |s| == 2
    ensures 100 <= n < 1000 ==> |s| == 3
    ensures 1000 <= n < 10000 ==> |s| == 4
  {
    if n < 10 then [DigitChar(n)] else Digits(n / 10) + [DigitChar(n % 10)]
  }

  /** The digits of n are decimal digits worth n, with no leading zero unless n is 0. */
  lemma {:induction false} DigitsValue(n: nat)
    ensures AllDigits(Digits(n)) && ValueOf(Digits(n)) == n
    ensures Digits(n)[0] == '0' ==> n == 0
  {
    if n >= 10 {
      DigitsValue(n / 10);
      var s := Digits(n);
      assert s[..|s| - 1] == Digits(n / 10);
    }
  }

  /** `fmt.Sprintf("%d", i)`. */
  function Itoa(i: int): string {
    if i < 0 then "-" + Digits(-i) else Digits(i)
  }

  function Zeros(k: nat): (s: string)
    ensures |s| == k && AllDigits(s)
  {
    if k == 0 then "" else "0" + Zeros(k - 1)
  }

  /** `fmt.Sprintf("%0*d", width, n)` for n >= 0: digits of n, left-padded with zeros to `width`. */
  function ZeroPad(n: nat, width: nat): (s: string)
    ensures |s| == if |Digits(n)| < width then width else |Digits(n)|
  {
    var d := Digits(n);
    if |d| < width then Zeros(width - |d|) + d else d
  }

  /** The padded text is still decimal digits worth n. */
  lemma ZeroPadValue(n: nat, width: nat)
    ensures AllDigits(ZeroPad(n, width)) && ValueOf(ZeroPad(n, width)) == n
  {
    DigitsValue(n);
    var d := Digits(n);
    if |d| < width {
      assert ZeroPad(n, width) == Zeros(width - |d|) + d;
      LeadingZeros(width - |d|, d);
    } else {
      assert ZeroPad(n, width) == d;
    }
  }

  lemma {:induction false} LeadingZeros(k: nat, d: string)
    requires AllDigits(d)
    ensures AllDigits(Zeros(k) + d) && ValueOf(Zeros(k) + d) == ValueOf(d)
  {
    if k > 0 {
      LeadingZeros(k - 1, d);
      LeadingZero(Zeros(k - 1) + d);
      assert Zeros(k) == "0" + Zeros(k - 1);
      assert Zeros(k) + d == "0" + (Zeros(k - 1) + d);
    } else {
      assert Zeros(k) + d == d;
    }
  }

  lemma {:induction false} LeadingZero(s: string)
    requires AllDigits(s)
    ensures AllDigits("0" + s) && ValueOf("0" + s) == ValueOf(s)
  {
    if s != [] {
      var t := "0" + s;
      assert t[..|t| - 1] == "0" + s[..|s| - 1];
      LeadingZero(s[..|s| - 1]);
    }
  }

  /** Two digit strings of the same length with the same value are equal. */
  lemma {:induction false} ValueOfInjective(a: string, b: string)
    requires AllDigits(a) && AllDigits(b) && |a| == |b|
    requires ValueOf(a) == ValueOf(b)
    ensures a == b
  {
    if a != [] {
      var n := |a| - 1;
      assert ValueOf(a) % 10 == a[n] as int - '0' as int;
      assert ValueOf(b) % 10 == b[n] as int - '0' as int;
      ValueOfInjective(a[..n], b[..n]);
      assert a == a[..n] + [a[n]] && b == b[..n] + [b[n]];
    }
  }

  /** Go's `a < b` on strings (and SQLite's BINARY collation): byte-wise lexicographic order. */
  predicate StrLess(a: string, b: string) {
    if a == [] then b != []
    else b != [] && (a[0] < b[0] || (a[0] == b[0] && StrLess(a[1..], b[1..])))
  }

  lemma {:induction false} StrLessIrreflexive(a: string)
    ensures !StrLess(a, a)
  {
    if a != [] {
      StrLessIrreflexive(a[1..]);
    }
  }

  lemma {:induction false} StrLessTransitive(a: string, b: string, c: string)
    requires StrLess(a, b) && StrLess(b, c)
    ensures StrLess(a, c)
  {
    if a != [] && a[0] == b[0] && b[0] == c[0] {
      StrLessTransitive(a[1..], b[1..], c[1..]);
    }
  }

  lemma {:induction false} StrLessTotal(a: string, b: string)
    ensures a == b || StrLess(a, b) || StrLess(b, a)
  {
    if a != [] && b != [] && a[0] == b[0] {
      StrLessTotal(a[1..], b[1..]);
      if a[1..] == b[1..] {
        assert a == [a[0]] + a[1..] && b == [b[0]] + b[1..];
      }
    }
  }

  lemma {:induction false} StrLessAsymmetric(a: string, b: string)
    requires StrLess(a, b)
    ensures !StrLess(b, a)
  {
    if a != [] && a[0] == b[0] {
      StrLessAsymmetric(a[1..], b[1..]);
    }
  }

  /** `strings.Join(cells, sep)`. */
  function Join(cells: seq<string>, sep: string): string {
    if cells == [] then ""
    else if |cells| == 1 then cells[0]
    else cells[0] + sep + Join(cells[1..], sep)
  }

  /** Go's `strconv.ParseInt(s, 10, bitSize)` for 1 <= bitSize <= 64, reduced to whether it
      returns a nil error and, if so, the value: an optional sign, at least one decimal
      digit and nothing else, and a value that fits in a signed bitSize-bit integer. */
  function ParseInt(s: string, bitSize: nat): (r: Option<int>)
    requires 1 <= bitSize <= 64
    ensures r.Some? ==> -(Pow2(bitSize - 1) as int) <= r.value < Pow2(bitSize - 1)
    ensures r.Some? ==> AllDigits(s) || AllDigits(s[1..])
    ensures r.Some? ==> (
              && s != []
              && var digits := if s[0] == '-' || s[0] == '+' then s[1..] else s;
                 && AllDigits(digits)
                 && r.value == if s[0] == '-' then -(ValueOf(digits) as int) else ValueOf(digits))
  {
    var neg := s != [] && s[0] == '-';
    var body := if s != [] && (s[0] == '-' || s[0] == '+') then s[1..] else s;
    if body == [] || !AllDigits(body) then None
    else
      var v := if neg then -(ValueOf(body) as int) else ValueOf(body);
      if -(Pow2(bitSize - 1) as int) <= v < Pow2(bitSize - 1) then Some(v) else None
  }

  /** A run of digits, with or without a sign, parses exactly when its value fits in bitSize
      bits; any other character makes the text fail to parse. */
  lemma ParseIntDigits(d: string, bitSize: nat)
    requires 1 <= bitSize <= 64 && d != [] && AllDigits(d)
    ensures ParseInt(d, bitSize) == if ValueOf(d) < Pow2(bitSize - 1) then Some(ValueOf(d) as int) else None
    ensures ParseInt("+" + d, bitSize) == ParseInt(d, bitSize)
    ensures ParseInt("-" + d, bitSize) == if ValueOf(d) <= Pow2(bitSize - 1) then Some(-(ValueOf(d) as int)) else None
  {
    assert ("+" + d)[1..] == d && ("-" + d)[1..] == d;
  }

  /** A text with a character that is neither a digit nor a leading sign does not parse,
      and neither does the empty text or a lone sign. */
  lemma ParseIntRejects(s: string, bitSize: nat)
    requires 1 <= bitSize <= 64
    requires || s == [] || s == "-" || s == "+"
             || exists i :: 0 <= i < |s| && !IsDigit(s[i]) && !(i == 0 && (s[0] == '-' || s[0] == '+'))
    ensures ParseInt(s, bitSize) == None
  {
    if s != [] && s != "-" && s != "+" {
      var i :| 0 <= i < |s| && !IsDigit(s[i]) && !(i == 0 && (s[0] == '-' || s[0] == '+'));
      if s[0] == '-' || s[0] == '+' {
        assert s[1..][i - 1] == s[i];
      }
    }
  }

  /** `strconv.ParseInt(digits, 10, bitSize)` with its error ignored, for a non-empty run of
      digits: the value, or the largest bitSize-bit value when it does not fit. */
  function ParseIntClamped(digits: string, bitSize: nat): (v: int)
    requires 1 <= bitSize <= 64 && digits != [] && AllDigits(digits)
    ensures 0 <= v < Pow2(bitSize - 1)
    ensures ParseInt(digits, bitSize).Some? ==> v == ParseInt(digits, bitSize).value
    ensures ParseInt(digits, bitSize).None? ==> v == Pow2(bitSize - 1) - 1
  {
    var n := ValueOf(digits);
    if n < Pow2(bitSize - 1) then n else Pow2(bitSize - 1) - 1
  }

  function Pow2(k: nat): (r: nat)
    ensures r >= 1
  {
    if k == 0 then 1 else 2 * Pow2(k - 1)
  }

  /** The bytes of U+FFFD, what `string(r)` yields for a value that is not a Unicode scalar. */
  const RuneError: string := [0xEF as char, 0xBF as char, 0xBD as char]

  predicate IsScalar(r: int) {
    0 <= r < 0xD800 || 0xDFFF < r <= 0x10FFFF
  }

  function Byte(b: int): char
    requires 0 <= b < 256
  {
    b as char
  }

  /** `string(r)` for a rune r: its UTF-8 encoding, of a length set by the rune's range, a
      lead byte that announces that length, and continuation bytes 10xxxxxx. */
  function EncodeRune(r: int): (s: string)
    ensures 1 <= |s| <= 4
    ensures 0 <= r < 0x80 ==> s == [r as char]
    ensures !IsScalar(r) ==> s == RuneError
    ensures forall i :: 0 <= i < |s| ==> s[i] as int < 256
    ensures IsScalar(r) && 0x80 <= r < 0x800 ==> |s| == 2 && 0xC2 <= s[0] as int < 0xE0
    ensures IsScalar(r) && 0x800 <= r < 0x10000 ==> |s| == 3 && 0xE0 <= s[0] as int < 0xF0
    ensures IsScalar(r) && 0x10000 <= r ==> |s| == 4 && 0xF0 <= s[0] as int < 0xF5
    ensures IsScalar(r) ==> forall i :: 1 <= i < |s| ==> 0x80 <= s[i] as int < 0xC0
  {
    if 0 <= r < 0x80 then [Byte(r)]
    else if 0x80 <= r < 0x800 then
      [Byte(0xC0 + r / 64), Byte(0x80 + r % 64)]
    else if !IsScalar(r) then RuneError
    else if r < 0x10000 then
      [Byte(0xE0 + r / 4096), Byte(0x80 + (r / 64) % 64), Byte(0x80 + r % 64)]
    else
      [Byte(0xF0 + r / 262144), Byte(0x80 + (r / 4096) % 64), Byte(0x80 + (r / 64) % 64), Byte(0x80 + r % 64)]
  }

  /** The rune that 1 to 4 UTF-8 bytes spell: the lead byte's payload bits followed by six
      bits from each continuation byte. */
  function DecodeRune(s: string): int
    requires 1 <= |s| <= 4
  {
    if |s| == 1 then s[0] as int
    else if |s| == 2 then (s[0] as int - 0xC0) * 64 + (s[1] as int - 0x80)
    else if |s| == 3 then (s[0] as int - 0xE0) * 4096 + (s[1] as int - 0x80) * 64 + (s[2] as int - 0x80)
    else (s[0] as int - 0xF0) * 262144 + (s[1] as int - 0x80) * 4096 + (s[2] as int - 0x80) * 64 + (s[3] as int - 0x80)
  }

  /** Decoding the bytes of a Unicode scalar gives the scalar back. */
  lemma EncodeRuneDecodes(r: int)
    requires IsScalar(r)
    ensures DecodeRune(EncodeRune(r)) == r
  {
    assert r == r / 64 * 64 + r % 64;
    assert r / 64 == r / 4096 * 64 + r / 64 % 64;
    assert r / 4096 == r / 262144 * 64 + r / 4096 % 64;
  }
}
