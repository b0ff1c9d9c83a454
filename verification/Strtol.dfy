/** KLEE's strtol and strtoul: numbers in any base from 2 to 36, read without ever overflowing. */
module Strtol {
  import opened Wrappers

  /** The character at a position; strings end with a NUL that is not part of them. */
  function At(str: string, i: nat): char { if i < |str| then str[i] else '\0' }

  predicate IsSpace(c: char) { c == ' ' || '\t' <= c <= '\r' }

  /** The value of a letter or digit, and 36 for anything else. */
  function DigitValue(c: char): (d: nat)
    ensures d <= 36
  {
    if '0' <= c <= '9' then c as nat - '0' as nat
    else if 'A' <= c <= 'Z' then c as nat - 'A' as nat + 10
    else if 'a' <= c <= 'z' then c as nat - 'a' as nat + 10
    else 36
  }

  /** Digits and letters in either case count up from 0 and from 10, and the white space is that of the C locale. */
  lemma Characters(c: char, i: nat)
    ensures i < 10 ==> DigitValue('0' + i as char) == i
    ensures i < 26 ==> DigitValue('a' + i as char) == DigitValue('A' + i as char) == 10 + i
    ensures DigitValue(c) < 36 <==> '0' <= c <= '9' || 'A' <= c <= 'Z' || 'a' <= c <= 'z'
    ensures IsSpace(c) <==> c as nat in {9, 10, 11, 12, 13, 32}
  {
  }

  /** Nothing but white space, and then none. */
  predicate SkipsSpace(str: string, i: nat) {
    i <= |str| && (forall k: nat :: k < i ==> IsSpace(At(str, k))) && !IsSpace(At(str, i))
  }

  predicate HasHexPrefix(str: string, i: nat, base: int) {
    (base == 0 || base == 16) && At(str, i) == '0' && (At(str, i + 1) == 'x' || At(str, i + 1) == 'X')
  }

  /** The base that applies to a number that starts at `i`. */
  function BaseAt(str: string, i: nat, base: int): int {
    if HasHexPrefix(str, i, base) then 16 else if base != 0 then base else if At(str, i) == '0' then 8 else 10
  }

  /** A maximal run of digits. */
  predicate DigitRun(str: string, i: nat, j: nat, base: int) {
    i <= j <= |str| && (forall k: nat :: i <= k < j ==> DigitValue(At(str, k)) < base) && DigitValue(At(str, j)) >= base
  }

  /** The number written by the digits between two positions. */
  function Value(str: string, i: nat, j: nat, base: nat): (v: nat)
    requires i <= j <= |str|
  {
    if i == j then 0 else Value(str, i, j - 1, base) * base + DigitValue(str[j - 1])
  }

  /** Where the parts of a number lie: after white space and a sign, `digits` is where its digits begin, after any prefix. */
  datatype Parts = Parts(negative: bool, base: int, digits: nat)

  ghost predicate IsParts(str: string, base: int, p: Parts) {
    exists i :: SkipsSpace(str, i) && IsPartsAt(str, base, p, i)
  }

  function AfterSign(str: string, i: nat): nat { if At(str, i) == '-' || At(str, i) == '+' then i + 1 else i }

  predicate IsPartsAt(str: string, base: int, p: Parts, i: nat) {
    var n := AfterSign(str, i);
    p.negative == (At(str, i) == '-') && p.base == BaseAt(str, n, base) && p.digits == if HasHexPrefix(str, n, base)
      then n + 2 else n
  }

  datatype Errno = ERANGE | EINVAL

  /** The number, where it ends, and the error if there was one. */
  datatype Result = Result(value: int, end: nat, errno: Option<Errno>)

  /** There is a number to convert. */
  predicate HasNumber(str: string, p: Parts) { 2 <= p.base <= 36 && DigitValue(At(str, p.digits)) < p.base }

  const NO_CONVERSION := Result(0, 0, Some(EINVAL))

  /** strtol as section 7.20.1.4 of ISO C99 describes it: without digits no conversion; a number out of range is replaced
      by the nearer limit of a long. */
  ghost predicate StrtolResult(str: string, p: Parts, longMax: nat, r: Result) {
    if !HasNumber(str, p) then r == NO_CONVERSION
    else (
      && DigitRun(str, p.digits, r.end, p.base)
      && var v := if p.negative then 0 - Value(str, p.digits, r.end, p.base) else Value(str, p.digits, r.end, p.base);
         if v > longMax then r.value == longMax && r.errno == Some(ERANGE)
         else if v < -1 - longMax then r.value == -1 - longMax && r.errno == Some(ERANGE)
         else r.value == v && r.errno.None?)
  }

  /** strtoul: a minus sign negates modulo one more than the limit. */
  ghost predicate StrtoulResult(str: string, p: Parts, ulongMax: nat, r: Result) {
    if !HasNumber(str, p) then r == NO_CONVERSION
    else (
      && DigitRun(str, p.digits, r.end, p.base)
      && var v := Value(str, p.digits, r.end, p.base);
         if v > ulongMax then r.value == ulongMax && r.errno == Some(ERANGE)
         else r.errno.None? && r.value == if p.negative && v > 0 then ulongMax + 1 - v else v)
  }

  lemma SpaceUnique(str: string, i: nat, j: nat)
    requires SkipsSpace(str, i) && SkipsSpace(str, j)
    ensures i == j
  {
    if i < j || j < i {
      assert false;
    }
  }

  lemma PartsUnique(str: string, base: int, p: Parts, q: Parts)
    requires IsParts(str, base, p) && IsParts(str, base, q)
    ensures p == q
  {
    var i: nat :| SkipsSpace(str, i) && IsPartsAt(str, base, p, i);
    var j: nat :| SkipsSpace(str, j) && IsPartsAt(str, base, q, j);
    SpaceUnique(str, i, j);
  }

  /** A maximal run of digits has one end. */
  lemma RunUnique(str: string, i: nat, j: nat, k: nat, base: int)
    requires DigitRun(str, i, j, base) && DigitRun(str, i, k, base)
    ensures j == k
  {
    if j < k || k < j {
      assert false;
    }
  }

  /** The text determines the parts, the end and the result. */
  lemma ResultUnique(str: string, base: int, longMax: nat, p: Parts, q: Parts, r: Result, t: Result)
    requires IsParts(str, base, p) && IsParts(str, base, q) && StrtolResult(str, p, longMax, r) &&
      StrtolResult(str, q, longMax, t)
    ensures p == q && r == t
  {
    PartsUnique(str, base, p, q);
    if HasNumber(str, p) {
      RunUnique(str, p.digits, r.end, t.end, p.base);
    }
  }

  lemma UnsignedResultUnique(str: string, base: int, ulongMax: nat, p: Parts, q: Parts, r: Result, t: Result)
    requires IsParts(str, base, p) && IsParts(str, base, q) && StrtoulResult(str, p, ulongMax, r) &&
      StrtoulResult(str, q, ulongMax, t)
    ensures p == q && r == t
  {
    PartsUnique(str, base, p, q);
    if HasNumber(str, p) {
      RunUnique(str, p.digits, r.end, t.end, p.base);
    }
  }

  // ----- where the code and the standard differ

  /** As the standard has it, the prefix counts only if a hexadecimal digit follows; otherwise the zero is the number. */
  ghost predicate IsStandardParts(str: string, base: int, p: Parts) {
    exists i :: SkipsSpace(str, i) && IsStandardPartsAt(str, base, p, i)
  }

  predicate IsStandardPartsAt(str: string, base: int, p: Parts, i: nat) {
    var n := AfterSign(str, i);
    if IsBarePrefix(str, n, base) then p == Parts(At(str, i) == '-', if base == 0 then 8 else 16, n)
      else IsPartsAt(str, base, p, i)
  }

  /** A prefix without a hexadecimal digit after it. */
  predicate IsBarePrefix(str: string, n: nat, base: int) { HasHexPrefix(str, n, base) && DigitValue(At(str, n + 2)) >= 16 }

  ghost predicate HasBarePrefix(str: string, base: int) {
    exists i: nat :: SkipsSpace(str, i) && IsBarePrefix(str, AfterSign(str, i), base)
  }

  /** With a bare prefix the code finds no number where the standard does; otherwise the parts are the same. */
  lemma StandardParts(str: string, base: int, p: Parts, q: Parts)
    requires IsParts(str, base, p) && IsStandardParts(str, base, q)
    ensures if HasBarePrefix(str, base) then !HasNumber(str, p) && HasNumber(str, q) else p == q
  {
    var i: nat :| SkipsSpace(str, i) && IsPartsAt(str, base, p, i);
    var j: nat :| SkipsSpace(str, j) && IsStandardPartsAt(str, base, q, j);
    SpaceUnique(str, i, j);
    if HasBarePrefix(str, base) {
      var k: nat :| SkipsSpace(str, k) && IsBarePrefix(str, AfterSign(str, k), base);
      SpaceUnique(str, i, k);
    }
  }

  /** The result of strtol is the standard's exactly for texts without a bare prefix. */
  lemma StandardExact(str: string, base: int, longMax: nat, p: Parts, q: Parts, r: Result)
    requires IsParts(str, base, p) && IsStandardParts(str, base, q) && StrtolResult(str, p, longMax, r)
    ensures StrtolResult(str, q, longMax, r) <==> !HasBarePrefix(str, base)
  {
    StandardParts(str, base, p, q);
  }

  /** So is that of strtoul. */
  lemma UnsignedStandardExact(str: string, base: int, ulongMax: nat, p: Parts, q: Parts, r: Result)
    requires IsParts(str, base, p) && IsStandardParts(str, base, q) && StrtoulResult(str, p, ulongMax, r)
    ensures StrtoulResult(str, q, ulongMax, r) <==> !HasBarePrefix(str, base)
  {
    StandardParts(str, base, p, q);
  }

  /** The input "0x", in base 16 or with the base left open: the standard reads the number zero, of one character, and
      neither function finds a number. */
  lemma BareZeroX(base: int, max: nat)
    requires base == 0 || base == 16
    ensures var p := Parts(false, 16, 2);
      IsParts("0x", base, p) && StrtolResult("0x", p, max, NO_CONVERSION) && StrtoulResult("0x", p, max, NO_CONVERSION)
    ensures var q, zero := Parts(false, if base == 0 then 8 else 16, 0), Result(0, 1, None);
      IsStandardParts("0x", base, q) && StrtolResult("0x", q, max, zero) && StrtoulResult("0x", q, max, zero)
  {
    assert SkipsSpace("0x", 0);
    assert IsPartsAt("0x", base, Parts(false, 16, 2), 0);
    var q := Parts(false, if base == 0 then 8 else 16, 0);
    assert IsStandardPartsAt("0x", base, q, 0);
    assert DigitRun("0x", 0, 1, q.base) && Value("0x", 0, 1, q.base) == 0;
  }

  // ----- the code

  /** White space, sign and prefix. */
  method ReadPrefix(str: string, base0: int) returns (s: nat, negative: bool, base: int)
    requires '\0' !in str
    ensures s <= |str| && IsParts(str, base0, Parts(negative, base, s))
  {
    s, negative, base := 0, false, base0;
    while IsSpace(At(str, s))
      invariant s <= |str| && forall k: nat :: k < s ==> IsSpace(At(str, k))
      decreases |str| - s
    {
      s := s + 1;
    }
    ghost var i := s;
    assert SkipsSpace(str, i);
    if At(str, s) == '-' {
      negative, s := true, s + 1;
    } else if At(str, s) == '+' {
      s := s + 1;
    }
    if (base == 0 || base == 16) && At(str, s) == '0' && (At(str, s + 1) == 'x' || At(str, s + 1) == 'X') {
      s, base := s + 2, 16;
    }
    if base == 0 {
      base := if At(str, s) == '0' then 8 else 10;
    }
    assert IsPartsAt(str, base0, Parts(negative, base, s), i);
  }

  /** The digits: `any` is 0 without digits, negative once the number exceeds the limit. No intermediate result does. */
  method ReadDigits(str: string, start: nat, base: nat, limit: nat) returns (s: nat, any: int, acc: nat)
    requires start <= |str| && '\0' !in str && 2 <= base <= 36
    ensures DigitRun(str, start, s, base) && (any == 0 <==> s == start) && (any < 0 <==> Value(str, start, s, base) > limit)
    ensures any >= 0 ==> acc == Value(str, start, s, base)
  {
    var cutoff, cutlim := limit / base, limit % base;
    s, any, acc := start, 0, 0;
    while true
      invariant start <= s <= |str| && (any == 0 <==> s == start) && (any < 0 <==> Value(str, start, s, base) > limit)
      invariant any >= 0 ==> acc == Value(str, start, s, base) <= limit
      invariant forall k: nat :: start <= k < s ==> DigitValue(At(str, k)) < base
      decreases |str| - s
    {
      var c := DigitValue(At(str, s));
      if c >= base { break; }
      Cutoff(Value(str, start, s, base), c, base, limit);
      if any < 0 || acc > cutoff || (acc == cutoff && c > cutlim) {
        any := -1;
      } else {
        any := 1;
        assert acc * base + c <= limit;
        acc := acc * base + c;
      }
      s := s + 1;
    }
  }

  lemma Scale(a: nat, b: nat, c: nat)
    requires a <= b
    ensures a * c <= b * c
  {
  }

  /** The test against the quotient and the remainder of the limit is the test for overflow. */
  lemma Cutoff(v: nat, c: nat, base: nat, limit: nat)
    requires c < base
    ensures v * base + c > limit <==> v > limit / base || (v == limit / base && c > limit % base)
    ensures v * base + c >= v
  {
    var q, rem := limit / base, limit % base;
    assert limit == q * base + rem;
    Compare(v, c, q, rem, base);
    Scale(1, base, v);
  }

  /** Numbers compare like their quotients, and then their remainders. */
  lemma Compare(v: nat, c: nat, q: nat, rem: nat, base: nat)
    requires c < base && rem < base
    ensures v * base + c > q * base + rem <==> v > q || (v == q && c > rem)
  {
    if v > q {
      Scale(q + 1, v, base);
      assert (q + 1) * base == q * base + base;
    } else if v < q {
      Scale(v + 1, q, base);
      assert (v + 1) * base == v * base + base;
    }
  }

  method Strtol(str: string, base: int, longMax: nat) returns (r: Result)
    requires '\0' !in str
    ensures exists p :: IsParts(str, base, p) && StrtolResult(str, p, longMax, r)
    ensures -1 - longMax <= r.value <= longMax
  {
    var s, negative, b := ReadPrefix(str, base);
    ghost var p := Parts(negative, b, s);
    assert IsParts(str, base, p);
    hide IsParts, IsPartsAt, At;
    if b < 2 || b > 36 { return NO_CONVERSION; }
    var limit := if negative then longMax + 1 else longMax;
    var any, acc;
    s, any, acc := ReadDigits(str, s, b, limit);
    if any < 0 {
      r := Result(if negative then -1 - longMax else longMax, s, Some(ERANGE));
    } else if any == 0 {
      r := NO_CONVERSION;
    } else {
      var v: int := acc;
      if negative { v := -v; }
      r := Result(v, s, None);
    }
    assert StrtolResult(str, p, longMax, r);
  }

  method Strtoul(str: string, base: int, ulongMax: nat) returns (r: Result)
    requires '\0' !in str
    ensures exists p :: IsParts(str, base, p) && StrtoulResult(str, p, ulongMax, r)
    ensures 0 <= r.value <= ulongMax
  {
    var s, negative, b := ReadPrefix(str, base);
    ghost var p := Parts(negative, b, s);
    assert IsParts(str, base, p);
    hide IsParts, IsPartsAt, At;
    if b < 2 || b > 36 { return NO_CONVERSION; }
    var any, acc;
    s, any, acc := ReadDigits(str, s, b, ulongMax);
    if any < 0 {
      r := Result(ulongMax, s, Some(ERANGE));
    } else if any == 0 {
      r := NO_CONVERSION;
    } else {
      // unsigned negation wraps around
      r := Result(if negative && acc != 0 then ulongMax + 1 - acc else acc, s, None);
    }
    assert StrtoulResult(str, p, ulongMax, r);
  }

  // ----- printing

  function Digit(d: nat): (c: char)
    requires d < 36
    ensures DigitValue(c) == d && (c == '0' <==> d == 0)
  {
    if d < 10 then '0' + d as char else 'a' + (d - 10) as char
  }

  lemma Shrinks(n: nat, base: nat)
    requires base >= 2
    ensures n >= base ==> n / base < n
  {
    var q := n / base;
    assert n == q * base + n % base;
    assert q * base == 2 * q + q * (base - 2);
  }

  function Print(n: nat, base: nat): (s: string)
    requires 2 <= base <= 36
    ensures s != []
  {
    Shrinks(n, base);
    if n < base then [Digit(n)] else Print(n / base, base) + [Digit(n % base)]
  }

  /** A printed number has only digits, and no leading zero. */
  lemma {:induction false} PrintShape(n: nat, base: nat)
    requires 2 <= base <= 36
    ensures var s := Print(n, base); (s[0] == '0' ==> n == 0 && |s| == 1) && forall k :: 0 <= k < |s| ==> DigitValue(s[k]) < base
  {
    hide DigitValue, Digit;
    Shrinks(n, base);
    if n >= base {
      PrintShape(n / base, base);
    }
  }

  lemma DigitIsPlain(c: char)
    requires DigitValue(c) < 36
    ensures !IsSpace(c) && c != '-' && c != '+' && c != '\0'
  {
  }

  lemma ValueStep(s: string, i: nat, j: nat, base: nat)
    requires i <= j < |s|
    ensures Value(s, i, j + 1, base) == Value(s, i, j, base) * base + DigitValue(s[j])
  {
  }

  lemma {:induction false} PrintValue(n: nat, base: nat, pre: string)
    requires 2 <= base <= 36
    ensures var s := pre + Print(n, base); Value(s, |pre|, |s|, base) == n
  {
    hide Value, DigitValue, Digit, IsSpace;
    Shrinks(n, base);
    if n < base {
      OneDigit(n, base, pre);
    } else {
      var t := pre + Print(n / base, base);
      PrintValue(n / base, base, pre);
      LastDigit(t, n, base, |pre|);
      assert pre + Print(n, base) == t + [Digit(n % base)];
    }
  }

  lemma OneDigit(n: nat, base: nat, pre: string)
    requires n < base <= 36
    ensures Value(pre + [Digit(n)], |pre|, |pre| + 1, base) == n
  {
    ValueStep(pre + [Digit(n)], |pre|, |pre|, base);
  }

  lemma LastDigit(t: string, n: nat, base: nat, i: nat)
    requires 2 <= base <= 36 && i <= |t| && Value(t, i, |t|, base) == n / base
    ensures Value(t + [Digit(n % base)], i, |t| + 1, base) == n
  {
    hide DigitValue, IsSpace, Digit, Value;
    var s := t + [Digit(n % base)];
    ValueStep(s, i, |t|, base);
    ValuePrefix(t, s, i, |t|, base);
    assert n == n / base * base + n % base;
  }

  lemma {:induction false} ValuePrefix(s: string, t: string, i: nat, j: nat, base: nat)
    requires i <= j <= |s| && j <= |t| && s[..j] == t[..j]
    ensures Value(s, i, j, base) == Value(t, i, j, base)
    decreases j
  {
    if i < j {
      assert s[..j - 1] == s[..j][..j - 1] && t[..j - 1] == t[..j][..j - 1];
      ValuePrefix(s, t, i, j - 1, base);
      assert s[j - 1] == s[..j][j - 1] && t[j - 1] == t[..j][j - 1];
    }
  }

  /** Digits to the end of the text are one run. */
  lemma RunToEnd(pre: string, digits: string, base: nat)
    requires base <= 36 && digits != [] && forall k :: 0 <= k < |digits| ==> DigitValue(digits[k]) < base
    ensures var s := pre + digits; DigitRun(s, |pre|, |s|, base) && At(s, |pre|) == digits[0]
    ensures |digits| == 1 ==> At(pre + digits, |pre| + 1) == '\0'
  {
    var s := pre + digits;
    assert DigitValue('\0') == 36;
    hide DigitValue;
    forall k: nat | |pre| <= k < |s| ensures DigitValue(At(s, k)) < base {
      assert At(s, k) == digits[k - |pre|];
    }
  }

  /** Where the parts of a printed number lie. */
  lemma PrintedParts(n: int, base: nat) returns (s: string, q: Parts)
    requires 2 <= base <= 36
    ensures s == if n < 0 then "-" + Print(-n, base) else Print(n, base)
    ensures IsParts(s, base, q) && HasNumber(s, q) && q.negative == (n < 0) && q.base == base
    ensures DigitRun(s, q.digits, |s|, base) && Value(s, q.digits, |s|, base) == if n < 0 then -n else n
  {
    assert !IsSpace('-');
    hide Print, Value, DigitValue, IsSpace, DigitRun;
    var pre := if n < 0 then "-" else "";
    var m: nat := if n < 0 then -n else n;
    var digits := Print(m, base);
    s, q := pre + digits, Parts(n < 0, base, |pre|);
    PrintValue(m, base, pre);
    PrintShape(m, base);
    RunToEnd(pre, digits, base);
    DigitIsPlain(digits[0]);
    assert !HasHexPrefix(s, |pre|, base);
    assert SkipsSpace(s, 0) && IsPartsAt(s, base, q, 0);
  }

  /** Reading a printed long gives it back, whole and without an error. */
  lemma PrintThenRead(n: int, base: nat, longMax: nat, p: Parts, r: Result)
    requires 2 <= base <= 36 && -1 - longMax <= n <= longMax
    requires var s := if n < 0 then "-" + Print(-n, base) else Print(n, base);
      IsParts(s, base, p) && StrtolResult(s, p, longMax, r)
    ensures r == Result(n, if n < 0 then 1 + |Print(-n, base)| else |Print(n, base)|, None)
  {
    var s, q := PrintedParts(n, base);
    hide Print, Value, IsParts, DigitRun;
    ResultUnique(s, base, longMax, p, q, r, Result(n, |s|, None));
  }
}
