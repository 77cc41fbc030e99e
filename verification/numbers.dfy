/** Numbers as text: itoa of the debug library, atol of the C library. */
module Numbers {
  const INT_MIN := -0x8000_0000
  const INT_MAX := 0x7FFF_FFFF
  const LONG_MAX := 0x7FFF_FFFF_FFFF_FFFF
  const ULONG_LIMIT := 0x1_0000_0000_0000_0000

  const DIGITS := "0123456789abcdefghijklmnopqrstuvwxyz"

  // ----- numerals -----

  function DigitValue(c: char): int {
    if '0' <= c <= '9' then c as int - '0' as int
    else if 'a' <= c <= 'z' then c as int - 'a' as int + 10
    else -1
  }

  predicate IsNumeral(s: string, radix: nat) {
    s != [] && forall i :: 0 <= i < |s| ==> 0 <= DigitValue(s[i]) < radix
  }

  /** One more digit at the end of a number. */
  function Push(a: nat, radix: nat, d: nat): nat {
    a * radix + d
  }

  function Quot(v: nat, radix: nat): (q: nat)
    requires radix >= 2
    ensures v > 0 ==> q < v
    ensures v >= radix <==> q > 0
  {
    QuotShrinks(v, radix);
    v / radix
  }

  function Rem(v: nat, radix: nat): (m: nat)
    requires radix >= 2
    ensures m < radix
  {
    v % radix
  }

  lemma OneMore(k: nat, r: nat)
    ensures (k + 1) * r == k * r + r
  {
  }

  lemma {:induction false} MulGap(x: nat, y: nat, r: nat)
    ensures x > y ==> x * r >= y * r + r
  {
    if x > y {
      OneMore(x - 1, r);
      MulGap(x - 1, y, r);
    }
  }

  lemma {:induction false} MulDoubles(q: nat, r: nat)
    requires r >= 2
    ensures q * r >= 2 * q
  {
    if q > 0 {
      OneMore(q - 1, r);
      MulDoubles(q - 1, r);
    }
  }

  lemma QuotShrinks(v: nat, r: nat)
    requires r >= 2
    ensures v > 0 ==> v / r < v
    ensures v >= r <==> v / r > 0
  {
    var q, m := v / r, v % r;
    assert q * r + m == v;
    MulDoubles(q, r);
    MulGap(q, 0, r);
  }

  lemma QuotRem(v: nat, r: nat)
    requires r >= 2
    ensures Push(Quot(v, r), r, Rem(v, r)) == v
  {
  }

  lemma QuotUnique(a: nat, d: nat, r: nat)
    requires r >= 2 && d < r
    ensures Quot(Push(a, r, d), r) == a && Rem(Push(a, r, d), r) == d
  {
    var q, m := (a * r + d) / r, (a * r + d) % r;
    assert q * r + m == a * r + d;
    MulGap(q, a, r);
    MulGap(a, q, r);
  }

  lemma PushGrows(a: nat, d: nat, r: nat)
    requires r >= 2 && a >= 1
    ensures Push(a, r, d) >= r
  {
    MulGap(a, 0, r);
  }

  /** Positional value, most significant digit first. */
  function Value(s: string, radix: nat): nat
    requires forall i :: 0 <= i < |s| ==> 0 <= DigitValue(s[i]) < radix
  {
    if s == [] then 0 else Push(Value(s[..|s| - 1], radix), radix, DigitValue(s[|s| - 1]))
  }

  /** The digits of v, most significant first. */
  function Digits(v: nat, radix: nat): (s: string)
    requires 2 <= radix <= 36
    ensures s != []
  {
    if v < radix then [DIGITS[v]] else Digits(Quot(v, radix), radix) + [DIGITS[Rem(v, radix)]]
  }

  lemma DecimalDigit(d: nat)
    requires d < 10
    ensures DIGITS[d] as int == '0' as int + d
  {
    assert DIGITS[d] == "0123456789"[d];
  }

  lemma LetterDigit(d: nat)
    requires 10 <= d < 36
    ensures DIGITS[d] as int == 'a' as int + d - 10
  {
    assert DIGITS[d] == "abcdefghijklmnopqrstuvwxyz"[d - 10];
  }

  lemma DigitOfValue(d: nat)
    requires d < 36
    ensures DigitValue(DIGITS[d]) == d
  {
    hide DIGITS;
    if d < 10 { DecimalDigit(d); } else { LetterDigit(d); }
  }

  lemma DigitIsChar(c: char)
    requires 0 <= DigitValue(c)
    ensures DigitValue(c) < 36 && DIGITS[DigitValue(c)] == c
  {
    var d := DigitValue(c);
    if d < 10 { DecimalDigit(d); } else { LetterDigit(d); }
  }

  /** The digits of v are a numeral for v without a leading zero. */
  lemma {:induction false} DigitsDenote(v: nat, radix: nat)
    requires 2 <= radix <= 36
    ensures IsNumeral(Digits(v, radix), radix) && Value(Digits(v, radix), radix) == v
    ensures |Digits(v, radix)| > 1 ==> Digits(v, radix)[0] != '0'
    ensures v > 0 ==> Digits(v, radix)[0] != '0'
  {
    hide Push, Quot, Rem;
    var s := Digits(v, radix);
    if v < radix {
      DigitOfValue(v);
      assert s[..0] == [];
      assert Push(0, radix, v) == v by { PushNothing(radix, v); }
    } else {
      var init := Digits(Quot(v, radix), radix);
      DigitsDenote(Quot(v, radix), radix);
      DigitOfValue(Rem(v, radix));
      assert s[..|s| - 1] == init;
      QuotRem(v, radix);
    }
  }

  lemma PushNothing(radix: nat, v: nat)
    ensures Push(0, radix, v) == v
  {
  }

  lemma {:induction false} LeadingDigit(s: string, radix: nat)
    requires radix >= 2 && IsNumeral(s, radix) && s[0] != '0'
    ensures Value(s, radix) >= 1
  {
    hide Push;
    if |s| > 1 {
      var init := s[..|s| - 1];
      LeadingDigit(init, radix);
      PushGrows(Value(init, radix), DigitValue(s[|s| - 1]), radix);
    } else {
      assert s[..0] == [];
      PushNothing(radix, DigitValue(s[0]));
    }
  }

  /** ... and the only one. */
  lemma {:induction false} OnlyOneNumeral(s: string, radix: nat)
    requires 2 <= radix <= 36 && IsNumeral(s, radix) && (|s| > 1 ==> s[0] != '0')
    ensures s == Digits(Value(s, radix), radix)
  {
    hide Push, Quot, Rem;
    var init, d := s[..|s| - 1], DigitValue(s[|s| - 1]);
    DigitIsChar(s[|s| - 1]);
    if |s| == 1 {
      assert init == [];
      PushNothing(radix, d);
    } else {
      LeadingDigit(init, radix);
      OnlyOneNumeral(init, radix);
      QuotUnique(Value(init, radix), d, radix);
      PushGrows(Value(init, radix), d, radix);
      assert s == init + [s[|s| - 1]];
    }
  }

  function Rev(s: string): (r: string)
    ensures |r| == |s| && forall i :: 0 <= i < |s| ==> r[i] == s[|s| - 1 - i]
  {
    if s == [] then [] else Rev(s[1..]) + [s[0]]
  }

  // ----- itoa -----

  /** What itoa writes: a minus sign for radix 10 only; otherwise a negative int is taken as an
      unsigned long. */
  function Text(value: int, radix: nat): string
    requires 2 <= radix <= 36 && INT_MIN <= value <= INT_MAX
  {
    if value >= 0 then Digits(value, radix)
    else if radix == 10 then ['-'] + Digits(-value, radix)
    else Digits(ULONG_LIMIT + value, radix)
  }

  /** What is written: a numeral without a leading zero, in radix 10 behind a minus sign for a negative value. */
  lemma TextDenotes(value: int, radix: nat)
    requires 2 <= radix <= 36 && -0x8000_0000 <= value < 0x8000_0000
    ensures var t := Text(value, radix);
            var minus := value < 0 && radix == 10;
            var s := if minus then t[1..] else t;
            && t != "" && (minus ==> t[0] == '-') && IsNumeral(s, radix) && (|s| > 1 ==> s[0] != '0')
            && (Value(s, radix) as int) == if minus then -value else if value < 0 then value + 0x1_0000_0000_0000_0000
                                           else value
  {
    hide Digits, IsNumeral, Value;
    var v: nat := if value >= 0 then value else if radix == 10 then -value else ULONG_LIMIT + value;
    DigitsDenote(v, radix);
    DigitsSome(v, radix);
    assert (['-'] + Digits(v, radix))[1..] == Digits(v, radix);
  }

  lemma DigitsSome(v: nat, radix: nat)
    requires 2 <= radix <= 36
    ensures Digits(v, radix) != ""
  {
    DigitsStep(v, radix);
  }

  lemma DigitsStep(u: nat, radix: nat)
    requires 2 <= radix <= 36
    ensures Digits(u, radix)
            == (if Quot(u, radix) > 0 then Digits(Quot(u, radix), radix) else []) + [DIGITS[Rem(u, radix)]]
  {
    if u < radix { SmallRem(u, radix); }
  }

  lemma SmallRem(u: nat, radix: nat)
    requires u < radix && radix >= 2
    ensures Rem(u, radix) == u
  {
    PushNothing(radix, u);
    QuotUnique(0, u, radix);
  }

  /** The division loop: digits from position `at` on, least significant first. */
  method WriteDigits(s: array<char>, at: nat, v: nat, radix: nat) returns (p: nat)
    requires 2 <= radix <= 36 && at + |Digits(v, radix)| < s.Length
    modifies s
    ensures p == at + |Digits(v, radix)| && s[at..p] == Rev(Digits(v, radix))
    ensures s[..at] == old(s[..at]) && s[p..] == old(s[p..])
  {
    hide Rev, Push, Quot, Rem, Digits;
    p := at;
    var u: nat, more := v, true;
    ghost var todo, done := Digits(v, radix), "";
    EmptyRev();
    while more
      invariant todo == if more then Digits(u, radix) else []
      invariant |todo| + |done| == |Digits(v, radix)| && Digits(v, radix) == todo + Rev(done)
      invariant p == at + |done| && s[at..p] == done
      invariant forall k :: 0 <= k < at || p <= k < s.Length ==> s[k] == old(s[k])
      decreases more, u
    {
      DigitsStep(u, radix);
      var c := DIGITS[Rem(u, radix)];
      s[p] := c;
      RevLast(done, c);
      assert s[at..p + 1] == s[at..p] + [c];
      done := done + [c];
      p := p + 1;
      u := Quot(u, radix);
      more := u > 0;
      todo := if more then Digits(u, radix) else [];
    }
    RevTwice(done);
  }

  lemma EmptyRev()
    ensures Rev("") == ""
  {
  }

  lemma RevLast(w: string, c: char)
    ensures Rev(w + [c]) == [c] + Rev(w)
  {
  }

  lemma RevTwice(w: string)
    ensures Rev(Rev(w)) == w
  {
  }

  /** The reversal loop: positions lo .. hi the other way round. */
  method ReverseBetween(s: array<char>, lo: nat, hi: nat)
    requires lo <= hi < s.Length
    modifies s
    ensures s[lo..hi + 1] == Rev(old(s[lo..hi + 1]))
    ensures s[..lo] == old(s[..lo]) && s[hi + 1..] == old(s[hi + 1..])
  {
    var q, p := lo, hi;
    while q < p
      invariant lo <= q <= p + 1 <= hi + 1 && q - lo == hi - p
      invariant forall k :: lo <= k < q || p < k <= hi ==> s[k] == old(s[lo + hi - k])
      invariant forall k :: q <= k <= p ==> s[k] == old(s[k])
      invariant s[..lo] == old(s[..lo]) && s[hi + 1..] == old(s[hi + 1..])
      decreases p - q
    {
      var temp := s[q];
      s[q] := s[p];
      s[p] := temp;
      q, p := q + 1, p - 1;
    }
    ghost var w, r := old(s[lo..hi + 1]), s[lo..hi + 1];
    forall k | 0 <= k < |w|
      ensures r[k] == w[|w| - 1 - k]
    {
      assert r[k] == s[lo + k] == old(s[lo + hi - (lo + k)]);
    }
    ReversedIs(w, r);
  }

  lemma ReversedIs(w: string, r: string)
    requires |r| == |w| && forall k :: 0 <= k < |w| ==> r[k] == w[|w| - 1 - k]
    ensures r == Rev(w)
  {
  }

  /** itoa.  For INT_MIN in radix 10 the negation overflows, which C leaves undefined. */
  method Itoa(value: int, s: array<char>, radix: nat)
    requires 2 <= radix <= 36 && INT_MIN <= value <= INT_MAX && (radix == 10 ==> value > INT_MIN)
    requires |Text(value, radix)| < s.Length
    modifies s
    ensures var t := Text(value, radix); s[..|t|] == t && s[|t|] == '\0' && s[|t| + 1..] == old(s[|t| + 1..])
  {
    hide Rev, Digits, Text;
    ghost var t := Text(value, radix);
    var ulvalue := if value < 0 then ULONG_LIMIT + value else value;
    var q := 0;
    if radix == 10 && value < 0 {
      s[0] := '-';
      q := 1;
      ulvalue := -value;
    }
    ghost var d := Digits(ulvalue, radix);
    TextSplits(value, radix);
    assert t == s[..q] + d;
    DigitsSome(ulvalue, radix);
    var p := WriteDigits(s, q, ulvalue, radix);
    s[p] := '\0';
    ghost var after := s[p..];
    assert s[q..p - 1 + 1] == Rev(d);
    ReverseBetween(s, q, p - 1);
    RevTwice(d);
    assert s[..p] == s[..q] + s[q..p - 1 + 1];
    assert s[p..] == after;
  }

  lemma TextSplits(value: int, radix: nat)
    requires 2 <= radix <= 36 && INT_MIN <= value <= INT_MAX
    ensures radix == 10 && value < 0 ==> Text(value, radix) == ['-'] + Digits(-value, radix)
    ensures !(radix == 10 && value < 0) ==>
              Text(value, radix) == [] + Digits(if value < 0 then ULONG_LIMIT + value else value, radix)
  {
    hide Digits;
  }

  // ----- atol -----

  predicate IsSpace(c: char) {
    c == ' ' || c == '\n' || c == '\t' || c == 12 as char || c == '\r' || c == 11 as char
  }

  predicate IsDigit(c: char) {
    '0' <= c <= '9'
  }

  function SkipSpaces(s: string): (r: string)
    ensures |r| <= |s| && (r != [] ==> !IsSpace(r[0]))
  {
    if s != [] && IsSpace(s[0]) then SkipSpaces(s[1..]) else s
  }

  /** The digits at the front. */
  function DigitRun(s: string): (r: string)
    ensures r <= s && (forall i :: 0 <= i < |r| ==> IsDigit(r[i])) && (|r| < |s| ==> !IsDigit(s[|r|]))
  {
    if s != [] && IsDigit(s[0]) then [s[0]] + DigitRun(s[1..]) else []
  }

  lemma DigitsHaveValues(s: string)
    requires forall i :: 0 <= i < |s| ==> IsDigit(s[i])
    ensures forall i :: 0 <= i < |s| ==> 0 <= DigitValue(s[i]) < 10
  {
  }

  /** The value of a string of decimal digits. */
  function Decimal(d: string): nat
    requires forall i :: 0 <= i < |d| ==> IsDigit(d[i])
  {
    DigitsHaveValues(d);
    Value(d, 10)
  }

  /** The number a text starts with, without a width. */
  function Number(s: string): int {
    var r := SkipSpaces(s);
    var neg := r != [] && r[0] == '-';
    var v: int := Decimal(DigitRun(if neg then r[1..] else r));
    if neg then -v else v
  }

  lemma {:induction false} SkipsSpace(w: string, s: string)
    requires (forall i :: 0 <= i < |w| ==> IsSpace(w[i])) && (s == "" || !IsSpace(s[0]))
    ensures SkipSpaces(w + s) == s
  {
    if w == "" {
      assert w + s == s;
    } else {
      SkipsSpace(w[1..], s);
      assert (w + s)[1..] == w[1..] + s;
    }
  }

  lemma {:induction false} TakesDigits(d: string, rest: string)
    requires (forall i :: 0 <= i < |d| ==> IsDigit(d[i])) && (rest == "" || !IsDigit(rest[0]))
    ensures DigitRun(d + rest) == d
  {
    if d == "" {
      assert d + rest == rest;
    } else {
      TakesDigits(d[1..], rest);
      assert (d + rest)[1..] == d[1..] + rest;
    }
  }

  /** What a text is read as: its spaces skipped, a minus sign taken, and the digits' value; the rest does not
      count. */
  lemma NumberReads(w: string, sign: string, d: string, rest: string)
    requires forall i :: 0 <= i < |w| ==> w[i] in [' ', '\n', '\t', 12 as char, '\r', 11 as char]
    requires sign == "" || sign == "-"
    requires d != "" && (forall i :: 0 <= i < |d| ==> '0' <= d[i] <= '9') && (rest == "" || !('0' <= rest[0] <= '9'))
    ensures var v: int := Value(d, 10); Number(w + sign + d + rest) == if sign == "-" then -v else v
  {
    hide Value, SkipSpaces, DigitRun, IsSpace, IsDigit, Number;
    var r := sign + d + rest;
    DigitsNotSpace(d);
    SpacesAre(w);
    assert !IsSpace(r[0]);
    SkipsSpace(w, r);
    FourParts(w, sign, d, rest);
    NotDigitAhead(rest);
    TakesDigits(d, rest);
    SignTaken(w + r, sign, d + rest);
  }

  lemma FourParts(a: string, b: string, c: string, d: string)
    ensures a + b + c + d == a + (b + c + d) && b + c + d == b + (c + d)
  {
  }

  lemma SignTaken(s: string, sign: string, r: string)
    requires SkipSpaces(s) == sign + r && (sign == "-" || (sign == "" && r != "" && r[0] != '-'))
    ensures var v: int := Decimal(DigitRun(r)); Number(s) == if sign == "-" then -v else v
  {
    hide SkipSpaces, DigitRun, Decimal;
    assert (sign + r)[|sign|..] == r;
  }

  lemma SpacesAre(w: string)
    requires forall i :: 0 <= i < |w| ==> w[i] in [' ', '\n', '\t', 12 as char, '\r', 11 as char]
    ensures forall i :: 0 <= i < |w| ==> IsSpace(w[i])
  {
  }

  lemma NotDigitAhead(r: string)
    requires r != "" ==> !('0' <= r[0] <= '9')
    ensures r != "" ==> !IsDigit(r[0])
  {
  }

  lemma DigitsNotSpace(d: string)
    requires forall i :: 0 <= i < |d| ==> '0' <= d[i] <= '9'
    ensures forall i :: 0 <= i < |d| ==> IsDigit(d[i]) && !IsSpace(d[i]) && d[i] != '-'
    ensures !IsSpace('-')
  {
  }

  lemma SkipStep(s: string, i: nat)
    requires i <= |s|
    ensures SkipSpaces(s[i..]) == if i < |s| && IsSpace(s[i]) then SkipSpaces(s[i + 1..]) else s[i..]
  {
    if i < |s| { assert s[i..][1..] == s[i + 1..]; }
  }

  lemma ValueStep(run: string, k: nat)
    requires k < |run| && forall i :: 0 <= i < |run| ==> IsDigit(run[i])
    ensures Decimal(run[..k + 1]) == Decimal(run[..k]) * 10 + (run[k] as int - '0' as int)
  {
    assert run[..k + 1][..k] == run[..k];
  }

  /** atol, for numbers that fit a long. */
  method Atol(s: string) returns (t: int)
    requires -LONG_MAX <= Number(s) <= LONG_MAX
    ensures t == Number(s)
  {
    hide Value, SkipSpaces, DigitRun, IsSpace, Push, DigitValue;
    var i := 0;
    SkipStep(s, 0);
    assert s[0..] == s;
    while i < |s| && IsSpace(s[i])
      invariant i <= |s| && SkipSpaces(s[i..]) == SkipSpaces(s)
    {
      SkipStep(s, i);
      i := i + 1;
    }
    SkipStep(s, i);
    var isNeg := false;
    if i < |s| && s[i] == '-' {
      isNeg := true;
      assert s[i..][1..] == s[i + 1..];
      i := i + 1;
    }
    t := ReadDigits(s, i);
    if isNeg { t := -t; }
  }

  /** The digit loop of atol, from position `from` on. */
  method ReadDigits(s: string, from: nat) returns (t: int)
    requires from <= |s|
    ensures t == Decimal(DigitRun(s[from..]))
  {
    hide Decimal, DigitRun;
    ghost var run := DigitRun(s[from..]);
    var i := from;
    t := 0;
    NoDigits();
    assert run[..0] == "";
    while i < |s| && IsDigit(s[i])
      invariant from <= i <= from + |run| <= |s|
      invariant t == Decimal(run[..i - from])
    {
      ghost var k := i - from;
      assert s[i] == s[from..][k];
      ValueStep(run, k);
      t := t * 10 + (s[i] as int - '0' as int);
      i := i + 1;
    }
    assert i < |s| ==> s[i] == s[from..][i - from];
    assert run[..i - from] == run;
  }

  lemma NoDigits()
    ensures Decimal("") == 0
  {
  }

  /** Reading back what itoa wrote in radix 10. */
  lemma AtolOfItoa(v: int)
    requires INT_MIN < v <= INT_MAX
    ensures Number(Text(v, 10)) == v
  {
    var d := Digits(if v < 0 then -v else v, 10);
    DigitsDenote(if v < 0 then -v else v, 10);
    assert forall i :: 0 <= i < |d| ==> IsDigit(d[i]) by { DecimalChars(d); }
    WholeRun(d);
    var t := Text(v, 10);
    assert !IsSpace(t[0]);
    assert SkipSpaces(t) == t;
    if v < 0 { assert t[1..] == d; }
  }

  lemma DecimalChars(d: string)
    requires IsNumeral(d, 10)
    ensures forall i :: 0 <= i < |d| ==> IsDigit(d[i])
  {
  }

  lemma {:induction false} WholeRun(d: string)
    requires forall i :: 0 <= i < |d| ==> IsDigit(d[i])
    ensures DigitRun(d) == d
  {
    if d != [] { WholeRun(d[1..]); }
  }

  /** In radix 10, INT_MIN does not fit the negation; in another radix every negative int comes out
      as the unsigned long it turns into. */
  lemma NegativeInOtherRadix(v: int, radix: nat)
    requires INT_MIN <= v < 0 && 2 <= radix <= 36 && radix != 10
    ensures IsNumeral(Text(v, radix), radix) && Value(Text(v, radix), radix) == ULONG_LIMIT + v
  {
    DigitsDenote(ULONG_LIMIT + v, radix);
  }
}
