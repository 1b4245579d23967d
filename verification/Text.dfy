/** Strings as the program compares, prints and parses them.
    Rust compares `String`s byte by byte; UTF-8 keeps code point order, so the order on
    sequences of characters below is the same order. */
module Text {

  datatype Option<+T> = None | Some(value: T)

  function Lookup(m: map<string, string>, key: string): Option<string> {
    if key in m then Some(m[key]) else None
  }

  /** Strict lexicographic order. */
  predicate Less(a: string, b: string) {
    if b == [] then false
    else if a == [] then true
    else a[0] < b[0] || (a[0] == b[0] && Less(a[1..], b[1..]))
  }

  predicate AtMost(a: string, b: string) {
    a == b || Less(a, b)
  }

  lemma {:induction false} LessIrreflexive(a: string)
    ensures !Less(a, a)
  {
    if a != [] {
      LessIrreflexive(a[1..]);
    }
  }

  lemma {:induction false} LessTransitive(a: string, b: string, c: string)
    requires Less(a, b) && Less(b, c)
    ensures Less(a, c)
  {
    if a != [] && a[0] == b[0] && b[0] == c[0] {
      LessTransitive(a[1..], b[1..], c[1..]);
    }
  }

  /** Any two different strings compare one way or the other. */
  lemma {:induction false} LessConnected(a: string, b: string)
    requires a != b
    ensures Less(a, b) || Less(b, a)
  {
    if a != [] && b != [] && a[0] == b[0] {
      assert a == [a[0]] + a[1..] && b == [b[0]] + b[1..];
      LessConnected(a[1..], b[1..]);
    }
  }

  lemma LessAsymmetric(a: string, b: string)
    requires Less(a, b)
    ensures !Less(b, a) && a != b
  {
  }

  lemma NotLessTransitive(x: string, y: string, z: string)
    requires !Less(x, y) && !Less(y, z)
    ensures !Less(x, z)
  {
  }

  /** Strings whose heads have one length compare by head first, then by tail. */
  lemma {:induction false} LessConcat(a: string, b: string, c: string, d: string)
    requires |a| == |b|
    ensures Less(a + c, b + d) <==> Less(a, b) || (a == b && Less(c, d))
  {
    if a == [] {
      assert a + c == c && b + d == d;
    } else {
      assert (a + c)[1..] == a[1..] + c && (b + d)[1..] == b[1..] + d;
      LessConcat(a[1..], b[1..], c, d);
      assert a == [a[0]] + a[1..] && b == [b[0]] + b[1..];
    }
  }

  predicate StartsWith(s: string, p: string) {
    p <= s
  }

  predicate EndsWith(s: string, p: string) {
    |p| <= |s| && s[|s| - |p|..] == p
  }

  function StripPrefix(s: string, p: string): Option<string> {
    if StartsWith(s, p) then Some(s[|p|..]) else None
  }

  function StripSuffix(s: string, p: string): Option<string> {
    if EndsWith(s, p) then Some(s[..|s| - |p|]) else None
  }

  /** `sep.join(parts)`. */
  function Join(parts: seq<string>, sep: string): string {
    if parts == [] then []
    else if |parts| == 1 then parts[0]
    else parts[0] + sep + Join(parts[1..], sep)
  }

  /** Joining puts the separator between any two parts and nowhere else. */
  lemma {:induction false} JoinSnoc(parts: seq<string>, p: string, sep: string)
    ensures Join(parts + [p], sep) == if parts == [] then p else Join(parts, sep) + sep + p
    ensures Join([], sep) == ""
  {
    if |parts| > 1 {
      assert (parts + [p])[1..] == parts[1..] + [p];
      JoinSnoc(parts[1..], p, sep);
    } else if |parts| == 1 {
      assert (parts + [p])[1..] == [p];
    }
  }

  // Decimal numbers

  function DigitChar(d: nat): char
    requires d < 10
  {
    ['0', '1', '2', '3', '4', '5', '6', '7', '8', '9'][d]
  }

  function HexDigit(d: nat): char
    requires d < 16
  {
    ['0', '1', '2', '3', '4', '5', '6', '7', '8', '9', 'a', 'b', 'c', 'd', 'e', 'f'][d]
  }

  lemma HexDigitInjective(a: nat, b: nat)
    requires a < 16 && b < 16 && HexDigit(a) == HexDigit(b)
    ensures a == b
  {
  }

  /** The value of a lower-case hexadecimal digit. */
  function Nibble(c: char): int {
    if '0' <= c <= '9' then c as int - '0' as int
    else if 'a' <= c <= 'f' then c as int - 'a' as int + 10
    else -1
  }

  lemma NibbleReads(d: nat)
    requires d < 16
    ensures Nibble(HexDigit(d)) == d
  {
  }

  predicate IsDigit(c: char) {
    '0' <= c <= '9'
  }

  function DigitValue(c: char): nat
    requires IsDigit(c)
  {
    c as int - '0' as int
  }

  /** `n.to_string()`. */
  function Decimal(n: nat): string {
    if n < 10 then [DigitChar(n)] else Decimal(n / 10) + [DigitChar(n % 10)]
  }

  /** The value of a run of digits. */
  function DigitsValue(s: string): nat
    requires forall c :: c in s ==> IsDigit(c)
  {
    if s == [] then 0 else 10 * DigitsValue(s[..|s| - 1]) + DigitValue(s[|s| - 1])
  }

  lemma {:induction false} DecimalRoundTrip(n: nat)
    ensures Decimal(n) != []
    ensures forall c :: c in Decimal(n) ==> IsDigit(c)
    ensures DigitsValue(Decimal(n)) == n
  {
    if n >= 10 {
      DecimalRoundTrip(n / 10);
      assert Decimal(n)[..|Decimal(n)| - 1] == Decimal(n / 10);
    }
  }

  const U64_LIMIT := 0x1_0000_0000_0000_0000

  /** `s.parse::<u64>()`: an optional plus sign, at least one digit, and a value that fits. */
  function ParseU64(s: string): Option<nat> {
    var t := if s != [] && s[0] == '+' then s[1..] else s;
    if t != [] && (forall c :: c in t ==> IsDigit(c)) && DigitsValue(t) < U64_LIMIT
    then Some(DigitsValue(t))
    else None
  }

  /** A number is read exactly where at least one digit, perhaps after one plus sign, spells a value
      below 2^64. */
  lemma ParseU64Meaning(s: string, n: nat)
    ensures ParseU64(s) == Some(n) <==>
      exists digits: string ::
        && (s == digits || s == "+" + digits)
        && digits != "" && (forall c :: c in digits ==> IsDigit(c)) && DigitsValue(digits) == n
        && n < 0x1_0000_0000_0000_0000
  {
    var t := if s != [] && s[0] == '+' then s[1..] else s;
    assert s == t || s == "+" + t;
    if digits: string :|
      && (s == digits || s == "+" + digits)
      && digits != "" && (forall c :: c in digits ==> IsDigit(c)) && DigitsValue(digits) == n
      && n < 0x1_0000_0000_0000_0000
    {
      assert digits[0] in digits;
      assert digits == t;
    }
  }

  lemma ParseDecimal(n: nat)
    requires n < U64_LIMIT
    ensures ParseU64(Decimal(n)) == Some(n)
  {
    DecimalRoundTrip(n);
    assert Decimal(n)[0] in Decimal(n);
  }
}
