/**
  Byte strings and decimal numerals, as Go's `strings` and `strconv` treat them.
  A `char` stands for one byte (or, in `Naming.AutoName`, for one code point), so
  `|s|` is Go's `len(s)`.
*/
module Text {

  datatype Option<+T> = None | Some(value: T)

  predicate HasPrefix(s: string, prefix: string) {
    prefix <= s
  }

  predicate Contains(s: string, part: string) {
    HasPrefix(s, part) || (s != "" && Contains(s[1..], part))
  }

  /** The part stands in the text at position `i`. */
  predicate OccursAt(s: string, part: string, i: int) {
    0 <= i <= |s| - |part| && s[i..i + |part|] == part
  }

  lemma OccursFurther(s: string, part: string, i: int)
    requires s != ""
    ensures OccursAt(s[1..], part, i) <==> i >= 0 && OccursAt(s, part, i + 1)
  {
    if 0 <= i <= |s| - 1 - |part| {
      assert s[1..][i..i + |part|] == s[i + 1..i + 1 + |part|];
    }
  }

  ghost predicate Occurs(s: string, part: string) {
    exists i :: OccursAt(s, part, i)
  }

  /** Containment: the part stands somewhere. */
  lemma {:induction false} ContainsIff(s: string, part: string)
    ensures Contains(s, part) <==> Occurs(s, part)
  {
    if HasPrefix(s, part) {
      assert OccursAt(s, part, 0);
    } else if s != "" {
      ContainsIff(s[1..], part);
      if i :| OccursAt(s, part, i) {
        assert i != 0;
        OccursFurther(s, part, i - 1);
      }
      if i :| OccursAt(s[1..], part, i) {
        OccursFurther(s, part, i);
      }
    }
  }

  lemma OccursAfter(before: string, s: string, part: string)
    requires Occurs(s, part)
    ensures Occurs(before + s, part)
  {
    var i :| OccursAt(s, part, i);
    assert (before + s)[|before| + i..|before| + i + |part|] == s[i..i + |part|];
    assert OccursAt(before + s, part, |before| + i);
  }

  /** Two neighbouring words stand in the joined text with one space between them. */
  lemma {:induction false} JoinKeepsNeighbours(words: seq<string>, i: nat)
    requires i + 1 < |words|
    ensures Occurs(JoinWords(words), words[i] + " " + words[i + 1])
  {
    var rest := words[1..];
    if i == 0 {
      var part := words[0] + " " + words[1];
      var tail := if |rest| == 1 then "" else " " + JoinWords(rest[1..]);
      assert rest[0] == words[1] && (|rest| > 1 ==> JoinWords(rest) == rest[0] + " " + JoinWords(rest[1..]));
      assert JoinWords(rest) == words[1] + tail;
      assert JoinWords(words) == words[0] + " " + JoinWords(rest) == part + tail;
      assert OccursAt(JoinWords(words), part, 0);
    } else {
      JoinKeepsNeighbours(rest, i - 1);
      assert rest[i - 1] == words[i] && rest[i] == words[i + 1];
      OccursAfter(words[0] + " ", JoinWords(rest), words[i] + " " + words[i + 1]);
    }
  }

  /** What stands in a part of the text stands in the text. */
  lemma OccursWithin(s: string, whole: string, part: string, i: int, j: int)
    requires OccursAt(s, whole, i) && OccursAt(whole, part, j)
    ensures OccursAt(s, part, i + j)
  {
    forall k | 0 <= k < |part| ensures s[i + j + k] == part[k] {
      assert s[i..i + |whole|][j + k] == whole[j + k];
      assert whole[j..j + |part|][k] == part[k];
    }
  }

  /** `strings.Join` with single spaces. */
  function JoinWords(words: seq<string>): string {
    if words == [] then "" else if |words| == 1 then words[0]
    else words[0] + " " + JoinWords(words[1..])
  }

  predicate IsDigit(c: char) {
    '0' <= c <= '9'
  }

  predicate AllDigits(s: string) {
    forall i | 0 <= i < |s| :: IsDigit(s[i])
  }

  function Digit(d: nat): (c: char)
    requires d < 10
    ensures IsDigit(c)
  {
    "0123456789"[d]
  }

  function Pow10(k: nat): (p: nat)
    ensures p > 0
  {
    if k == 0 then 1 else 10 * Pow10(k - 1)
  }

  /** The decimal numeral of a natural number. */
  function Decimal(n: nat): (s: string)
    ensures |s| > 0 && AllDigits(s)
  {
    if n < 10 then [Digit(n)] else Decimal(n / 10) + [Digit(n % 10)]
  }

  /** `strconv.Itoa`. */
  function Itoa(n: int): string {
    if n < 0 then "-" + Decimal(-n) else Decimal(n)
  }

  /** The value of a digit string. */
  function DigitsValue(s: string): nat
    requires AllDigits(s)
  {
    if s == "" then 0
    else DigitsValue(s[..|s| - 1]) * 10 + (s[|s| - 1] - '0') as nat
  }

  /** `strconv.Atoi` without its range check: an optional sign, then digits. */
  function Atoi(s: string): Option<int> {
    if s == "" then None
    else if s[0] == '-' || s[0] == '+' then
      if |s| > 1 && AllDigits(s[1..]) then
        var v: int := DigitsValue(s[1..]);
        Some(if s[0] == '-' then -v else v)
      else None
    else if AllDigits(s) then Some(DigitsValue(s)) else None
  }

  lemma {:induction false} DecimalValue(n: nat)
    ensures DigitsValue(Decimal(n)) == n
  {
    var s := Decimal(n);
    if n >= 10 {
      assert s[..|s| - 1] == Decimal(n / 10);
      DecimalValue(n / 10);
    } else {
      assert s[..|s| - 1] == "";
    }
  }

  lemma AtoiOfDigits(digits: string, n: nat)
    requires digits != "" && AllDigits(digits) && DigitsValue(digits) == n
    ensures Atoi(digits) == Some(n) && Atoi("-" + digits) == Some(0 - n)
  {
    assert IsDigit(digits[0]);
    assert ("-" + digits)[1..] == digits;
  }

  lemma ItoaRoundTrip(n: int)
    ensures Atoi(Itoa(n)) == Some(n)
  {
    var magnitude: nat := if n < 0 then -n else n;
    DecimalValue(magnitude);
    AtoiOfDigits(Decimal(magnitude), magnitude);
  }

  lemma DecimalInjective(m: nat, n: nat)
    requires Decimal(m) == Decimal(n)
    ensures m == n
  {
    DecimalValue(m);
    DecimalValue(n);
  }

  /** A numeral of k digits stands for a number below 10^k. */
  lemma {:induction false} DecimalBound(n: nat)
    ensures n < Pow10(|Decimal(n)|)
  {
    if n >= 10 {
      DecimalBound(n / 10);
    }
  }

  lemma {:induction false} DecimalLengthMonotone(m: nat, n: nat)
    requires m <= n
    ensures |Decimal(m)| <= |Decimal(n)|
  {
    if m >= 10 {
      DecimalLengthMonotone(m / 10, n / 10);
    }
  }

  lemma {:induction false} Pow10Monotone(j: nat, k: nat)
    requires j <= k
    ensures Pow10(j) <= Pow10(k)
  {
    if j < k {
      Pow10Monotone(j, k - 1);
    }
  }
}
