/**
 The two integer printers of the HAL: alt_log_private_printf divides by place values, with
 sign, base and padding; alt_printf scans nibbles for `%x`.
 */
module IntegerPrinting {
  import opened Basics
  import opened Arithmetic

  const SIGN := 0x8000_0000

  // ---------------------------------------------------------------- positional notation

  function Pow(b: nat, k: nat): nat {
    if k == 0 then 1 else Times(b, Pow(b, k - 1))
  }

  /** The number that digits stand for, most significant digit first. */
  function Value(ds: seq<nat>, b: nat): nat {
    if ds == [] then 0 else Times(Value(ds[..|ds| - 1], b), b) + ds[|ds| - 1]
  }

  predicate AllBelow(ds: seq<nat>, b: nat) {
    forall i | 0 <= i < |ds| :: ds[i] < b
  }

  /** The digits of `v` in base `b`: no leading zero, except for the number zero itself. */
  predicate IsNatural(ds: seq<nat>, v: nat, b: nat) {
    ds != [] && AllBelow(ds, b) && Value(ds, b) == v && (|ds| > 1 ==> ds[0] != 0)
  }

  lemma ValueLast(ds: seq<nat>, d: nat, b: nat)
    ensures Value(ds + [d], b) == Times(Value(ds, b), b) + d
  {
    assert (ds + [d])[..|ds|] == ds;
  }

  lemma {:induction false} ValuePositive(ds: seq<nat>, b: nat)
    requires ds != [] && ds[0] != 0 && b > 0
    ensures Value(ds, b) > 0
  {
    if |ds| > 1 {
      ValuePositive(ds[..|ds| - 1], b);
      TimesGrows(1, Value(ds[..|ds| - 1], b), b);
      assert Times(1, b) == Times(0, b) + b;
    } else {
      assert ds[..0] == [];
    }
  }

  lemma Below(x: nat, d: nat, y: nat, e: nat, b: nat)
    requires d < b && x < y
    ensures Times(x, b) + d < Times(y, b) + e
  {
    TimesGrows(x + 1, y, b);
  }

  lemma QuotientIs(x: nat, d: nat, y: nat, e: nat, b: nat)
    requires d < b && e < b && Times(x, b) + d == Times(y, b) + e
    ensures x == y && d == e
  {
    if x < y { Below(x, d, y, e, b); }
    if y < x { Below(y, e, x, d, b); }
  }

  /** A number has only one such notation. */
  lemma {:induction false} NaturalIsUnique(ds: seq<nat>, es: seq<nat>, v: nat, b: nat)
    requires IsNatural(ds, v, b) && IsNatural(es, v, b)
    ensures ds == es
    decreases |ds|
  {
    var d, e := ds[..|ds| - 1], es[..|es| - 1];
    QuotientIs(Value(d, b), ds[|ds| - 1], Value(e, b), es[|es| - 1], b);
    if d != [] { ValuePositive(d, b); }
    if e != [] { ValuePositive(e, b); }
    if d != [] && e != [] { NaturalIsUnique(d, e, Value(d, b), b); }
    assert ds == d + [ds[|ds| - 1]] && es == e + [es[|es| - 1]];
  }

  /** The notation of a number, from its last digit back. */
  function Notation(v: nat, b: nat): (ds: seq<nat>)
    requires b >= 2
    ensures IsNatural(ds, v, b)
    decreases v
  {
    if v < b then
      NotationOfDigit(v, b);
      [v]
    else
      QuotientSmaller(v, b);
      NotationGrows(Notation(v / b, b), v, b);
      Notation(v / b, b) + [v % b]
  }

  lemma NotationOfDigit(v: nat, b: nat)
    requires v < b
    ensures IsNatural([v], v, b)
  {
    assert [v][..0] == [];
    assert Times(Value([], b), b) == 0;
  }

  lemma QuotientSmaller(v: nat, b: nat)
    requires b >= 2 && v >= b
    ensures 0 < v / b < v
  {
    Division(v, b);
    assert Times(1, b) == Times(0, b) + b;
    TimesAtLeast(v / b, b);
  }

  lemma NotationGrows(ds: seq<nat>, v: nat, b: nat)
    requires b >= 2 && v / b > 0 && IsNatural(ds, v / b, b)
    ensures IsNatural(ds + [v % b], v, b)
  {
    Division(v, b);
    ValueLast(ds, v % b, b);
    if |ds| == 1 {
      assert ds[..0] == [];
      assert Value([], b) == 0 && Times(0, b) == 0;
    }
  }

  // ---------------------------------------------------------------- what is printed

  function DigitChar(d: nat, upper: bool): char
    requires d < 36
  {
    if d <= 9 then '0' + d as char else (if upper then 'A' else 'a') + (d - 10) as char
  }

  function Chars(ds: seq<nat>, upper: bool): (s: string)
    requires AllBelow(ds, 36)
    ensures |s| == |ds| && forall i | 0 <= i < |s| :: s[i] == DigitChar(ds[i], upper)
  {
    seq(|ds|, i requires 0 <= i < |ds| => DigitChar(ds[i], upper))
  }

  function Repeat(c: char, n: int): (s: string)
    ensures |s| == (if n > 0 then n else 0) && forall i | 0 <= i < |s| :: s[i] == c
  {
    seq(if n > 0 then n else 0, _ => c)
  }

  function Sign(negative: bool): string { if negative then "-" else "" }

  /** The digits with their sign, padded to the field width. */
  function Layout(ds: seq<nat>, negative: bool, leadingZero: bool, width: int, upper: bool): string
    requires AllBelow(ds, 36)
  {
    var pad := width - |ds| - (if negative then 1 else 0);
    if leadingZero then Sign(negative) + Repeat('0', pad) + Chars(ds, upper)
    else Repeat(' ', pad) + Sign(negative) + Chars(ds, upper)
  }

  lemma LayoutLength(ds: seq<nat>, negative: bool, leadingZero: bool, width: int, upper: bool)
    requires AllBelow(ds, 36)
    ensures var natural := |ds| + (if negative then 1 else 0);
            |Layout(ds, negative, leadingZero, width, upper)| == if width > natural then width else natural
  { }

  // ---------------------------------------------------------------- reading it back

  function DigitValue(c: char): nat {
    if '0' <= c <= '9' then c as int - '0' as int
    else if 'a' <= c <= 'z' then c as int - 'a' as int + 10
    else if 'A' <= c <= 'Z' then c as int - 'A' as int + 10
    else 0
  }

  function ParseDigits(s: string, b: nat): nat {
    if s == "" then 0 else Times(ParseDigits(s[..|s| - 1], b), b) + DigitValue(s[|s| - 1])
  }

  function SkipSpaces(s: string): string {
    if s != "" && s[0] == ' ' then SkipSpaces(s[1..]) else s
  }

  function Signed(negative: bool, v: int): int { if negative then -v else v }

  /** Spaces, an optional minus sign, and digits. */
  function Parse(s: string, b: nat): int {
    var t := SkipSpaces(s);
    if t != "" && t[0] == '-' then Signed(true, ParseDigits(t[1..], b)) else Signed(false, ParseDigits(t, b))
  }

  lemma {:induction false} ParseChars(ds: seq<nat>, upper: bool, b: nat)
    requires AllBelow(ds, 36)
    ensures ParseDigits(Chars(ds, upper), b) == Value(ds, b)
  {
    if ds != [] {
      var s, rest := Chars(ds, upper), ds[..|ds| - 1];
      assert s[..|s| - 1] == Chars(rest, upper);
      ParseChars(rest, upper, b);
    }
  }

  lemma {:induction false} LeadingZeros(n: nat, s: string, b: nat)
    ensures ParseDigits(Repeat('0', n) + s, b) == ParseDigits(s, b)
    decreases n + |s|
  {
    var t := Repeat('0', n) + s;
    if s != "" {
      assert t[..|t| - 1] == Repeat('0', n) + s[..|s| - 1];
      LeadingZeros(n, s[..|s| - 1], b);
    } else if n > 0 {
      assert t[..|t| - 1] == Repeat('0', n - 1) + "";
      LeadingZeros(n - 1, "", b);
    }
  }

  lemma {:induction false} SpacesSkipped(n: nat, s: string)
    requires s != "" ==> s[0] != ' '
    ensures SkipSpaces(Repeat(' ', n) + s) == s
  {
    var t := Repeat(' ', n) + s;
    if n > 0 {
      assert t[1..] == Repeat(' ', n - 1) + s;
      SpacesSkipped(n - 1, s);
    } else {
      assert t == s;
    }
  }

  lemma DigitIsNoSign(d: nat, upper: bool)
    requires d < 36
    ensures DigitChar(d, upper) != ' ' && DigitChar(d, upper) != '-' && DigitValue(DigitChar(d, upper)) == d
  { }

  /** Text that starts with its sign, if any, and goes on with digits. */
  lemma ParseSigned(negative: bool, digits: string, b: nat)
    requires digits != "" && digits[0] != ' ' && digits[0] != '-'
    ensures Parse(Sign(negative) + digits, b) == Signed(negative, ParseDigits(digits, b))
  {
    var t := Sign(negative) + digits;
    if negative { assert t[1..] == digits; } else { assert t == digits; }
  }

  lemma ParseSpaces(n: nat, t: string, b: nat)
    requires t != "" && t[0] != ' '
    ensures Parse(Repeat(' ', n) + t, b) == Parse(t, b)
  {
    SpacesSkipped(n, t);
    SpacesSkipped(0, t);
    assert Repeat(' ', 0) + t == t;
  }

  lemma ZerosRoundTrip(ds: seq<nat>, negative: bool, n: nat, upper: bool, b: nat)
    requires ds != [] && AllBelow(ds, 36)
    ensures Parse(Sign(negative) + (Repeat('0', n) + Chars(ds, upper)), b) == Signed(negative, Value(ds, b))
  {
    ParseChars(ds, upper, b);
    DigitIsNoSign(ds[0], upper);
    LeadingZeros(n, Chars(ds, upper), b);
    ParseSigned(negative, Repeat('0', n) + Chars(ds, upper), b);
  }

  lemma SpacesRoundTrip(ds: seq<nat>, negative: bool, n: nat, upper: bool, b: nat)
    requires ds != [] && AllBelow(ds, 36)
    ensures Parse(Repeat(' ', n) + (Sign(negative) + Chars(ds, upper)), b) == Signed(negative, Value(ds, b))
  {
    ParseChars(ds, upper, b);
    DigitIsNoSign(ds[0], upper);
    ParseSigned(negative, Chars(ds, upper), b);
    ParseSpaces(n, Sign(negative) + Chars(ds, upper), b);
  }

  lemma Regroup(a: string, b: string, c: string)
    ensures a + b + c == a + (b + c)
  { }

  /** Reading a layout back gives the number, whatever the padding. */
  lemma LayoutRoundTrip(ds: seq<nat>, negative: bool, leadingZero: bool, width: int, upper: bool, b: nat)
    requires ds != [] && AllBelow(ds, 36)
    ensures Parse(Layout(ds, negative, leadingZero, width, upper), b) == Signed(negative, Value(ds, b))
  {
    var pad := width - |ds| - (if negative then 1 else 0);
    var n := if pad > 0 then pad else 0;
    assert Repeat('0', pad) == Repeat('0', n) && Repeat(' ', pad) == Repeat(' ', n);
    if leadingZero {
      ZerosRoundTrip(ds, negative, n, upper, b);
      Regroup(Sign(negative), Repeat('0', n), Chars(ds, upper));
    } else {
      SpacesRoundTrip(ds, negative, n, upper, b);
      Regroup(Repeat(' ', n), Sign(negative), Chars(ds, upper));
    }
  }

  // ---------------------------------------------------------------- printing by place values

  /** The letters that print an integer. */
  datatype Conversion = D | I | U | O | X | UpperX

  function BaseOf(c: Conversion): nat {
    match c
    case O => 8
    case X => 16
    case UpperX => 16
    case _ => 10
  }

  function IsSigned(c: Conversion): bool { c.D? || c.I? }

  /** The number a word stands for. */
  function Number(c: Conversion, word: U32): int {
    if IsSigned(c) && word >= SIGN then word - WORD else word
  }

  /** Counting one digit more: the rest of the number is divided and the place value multiplied. */
  lemma Shrinks(v: nat, q: nat, s: nat, b: nat)
    requires Times(s, q) <= v < Times(s + 1, q) && b > 0
    ensures Times(s / b, Times(b, q)) <= v < Times(s / b + 1, Times(b, q))
  {
    var t := s / b;
    Division(s, b);
    TimesTwice(t, b, q);
    TimesTwice(t + 1, b, q);
    TimesGrows(Times(t, b), s, q);
    TimesGrows(s + 1, Times(t + 1, b), q);
  }

  /** `n` digits counted, `s` left of the number. */
  predicate Counting(v: U32, b: nat, n: nat, p: nat, s: nat) {
    && n >= 1 && p == Pow(b, n - 1) && (n > 1 ==> p <= v)
    && Times(s, Pow(b, n)) <= v < Times(s + 1, Pow(b, n))
  }

  lemma CountsOne(v: U32, b: nat)
    requires b > 0
    ensures Counting(v, b, 1, 1, v / b)
  {
    Division(v, b);
    TimesIs(b, 1);
    assert Pow(b, 0) == 1 && Pow(b, 1) == Times(b, Pow(b, 0));
  }

  lemma CountsMore(v: U32, b: nat, n: nat, p: nat, s: nat)
    requires Counting(v, b, n, p, s) && s > 0 && b in {8, 10, 16}
    ensures p * b <= v && 0 <= s / b < s && Counting(v, b, n + 1, p * b, s / b)
  {
    TimesIs(b, p);
    var q := Pow(b, n);
    TimesGrows(1, s, q);
    assert Times(1, q) == Times(0, q) + q;
    Shrinks(v, q, s, b);
  }

  lemma CountsAll(v: U32, b: nat, n: nat, p: nat)
    requires Counting(v, b, n, p, 0)
    ensures v < Pow(b, n)
  { }

  /** The number of digits and the largest place value. The product never leaves the word. */
  method CountDigits(v: U32, fmtBase: nat) returns (digitCount: nat, p: U32)
    requires fmtBase in {8, 10, 16}
    ensures digitCount >= 1 && p == Pow(fmtBase, digitCount - 1) && v < Pow(fmtBase, digitCount)
    ensures digitCount > 1 ==> p <= v
  {
    var vShrink: nat := v;
    p := 1;
    digitCount := 1;
    CountsOne(v, fmtBase);
    vShrink := vShrink / fmtBase;
    while vShrink > 0
      invariant Counting(v, fmtBase, digitCount, p, vShrink)
      decreases vShrink
    {
      CountsMore(v, fmtBase, digitCount, p, vShrink);
      digitCount := digitCount + 1;
      p := p * fmtBase;
      vShrink := vShrink / fmtBase;
    }
    CountsAll(v, fmtBase, digitCount, p);
  }

  /** One digit and what remains of the number below it. */
  lemma TakesDigit(high: nat, v: nat, value: nat, p: nat, b: nat)
    requires p > 0 && v < Times(b, p) && Times(high, Times(b, p)) + v == value
    ensures v / p < b && v % p < p && Times(Times(high, b) + v / p, p) + v % p == value
  {
    Division(v, p);
    if v / p >= b { TimesGrows(b, v / p, p); }
    TimesTwice(high, b, p);
    TimesAdd(Times(high, b), v / p, p);
  }

  /** Dividing a place value by the base. */
  lemma {:induction false} NextPlace(b: nat, k: nat)
    requires b in {8, 10, 16}
    ensures Pow(b, k) > 0 && Pow(b, k) / b == if k == 0 then 0 else Pow(b, k - 1)
  {
    if k > 0 {
      NextPlace(b, k - 1);
      TimesIs(8, Pow(b, k - 1));
      TimesIs(10, Pow(b, k - 1));
      TimesIs(16, Pow(b, k - 1));
    }
  }

  lemma PlaceIsPositive(b: nat, k: nat)
    requires b in {8, 10, 16}
    ensures k > 0 ==> Pow(b, k - 1) > 0
  {
    if k > 0 { NextPlace(b, k - 1); }
  }

  /** `ds` has been printed of `value`, and `v` with `k` digits is still to come. */
  predicate Printing(value: nat, b: nat, n: nat, ds: seq<nat>, v: nat, k: nat, p: nat) {
    && k <= n && |ds| == n - k && AllBelow(ds, b)
    && p == (if k > 0 then Pow(b, k - 1) else 0)
    && v < Pow(b, k) && Times(Value(ds, b), Pow(b, k)) + v == value
    && (ds == [] ==> v == value)
    && (ds != [] && n > 1 ==> ds[0] != 0)
  }

  /** Before the loop. */
  lemma PrintsNone(value: nat, place: nat, b: nat, n: nat)
    requires n >= 1 && place == Pow(b, n - 1) && value < Pow(b, n)
    ensures Printing(value, b, n, [], value, n, place)
  {
    assert Value([], b) == 0 && Times(0, Pow(b, n)) == 0;
  }

  /** One turn of the loop prints the digit `d` and leaves `r`. */
  lemma PrintsOne(value: nat, b: nat, n: nat, ds: seq<nat>, v: nat, k: nat, p: nat, d: nat, r: nat)
    requires Printing(value, b, n, ds, v, k, p) && p > 0 && b in {8, 10, 16}
    requires d < b && r < p && Times(Times(Value(ds, b), b) + d, p) + r == value
    requires ds == [] && n > 1 ==> d != 0
    ensures k > 0 && Printing(value, b, n, ds + [d], r, k - 1, p / b)
  {
    NextPlace(b, k - 1);
    ValueLast(ds, d, b);
  }

  lemma PrintsAll(value: nat, b: nat, n: nat, ds: seq<nat>, v: nat, k: nat, p: nat)
    requires Printing(value, b, n, ds, v, k, p) && p == 0 && b in {8, 10, 16} && n > 0
    ensures k == 0 && IsNatural(ds, value, b) && |ds| == n
  {
    PlaceIsPositive(b, k);
    TimesIs(Value(ds, b), 1);
  }

  /** The digits from the largest place value down. */
  method PrintDigits(value: U32, place: U32, fmtBase: nat, fmtCase: bool, ghost digitCount: nat)
    returns (out: string, ghost ds: seq<nat>)
    requires fmtBase in {8, 10, 16} && digitCount >= 1 && place == Pow(fmtBase, digitCount - 1)
    requires value < Pow(fmtBase, digitCount) && (digitCount > 1 ==> place <= value)
    ensures IsNatural(ds, value, fmtBase) && |ds| == digitCount && AllBelow(ds, 36) && out == Chars(ds, fmtCase)
  {
    hide Printing, IsNatural, Pow;
    var v: nat, p: nat := value, place;
    ghost var k := digitCount;
    out, ds := "", [];
    PrintsNone(value, place, fmtBase, digitCount);
    while p > 0
      invariant Printing(value, fmtBase, digitCount, ds, v, k, p)
      invariant ds == [] ==> p == place
      invariant AllBelow(ds, 36) && out == Chars(ds, fmtCase)
      decreases k
    {
      var d;
      d, v, p := TakeDigit(value, fmtBase, digitCount, ds, v, k, p);
      var c := DigitToChar(d, fmtCase);
      CharsLast(ds, d, fmtCase);
      out := out + [c];
      ds := ds + [d];
      k := k - 1;
    }
    PrintsAll(value, fmtBase, digitCount, ds, v, k, p);
  }

  /** The next digit, the rest of the number and the next place value. */
  method TakeDigit(ghost value: nat, b: nat, ghost n: nat, ghost ds: seq<nat>, v: nat, ghost k: nat, p: nat)
    returns (d: nat, v': nat, p': nat)
    requires Printing(value, b, n, ds, v, k, p) && p > 0 && b in {8, 10, 16}
    requires ds == [] && n > 1 ==> p <= value
    ensures k > 0 && d < b && Printing(value, b, n, ds + [d], v', k - 1, p')
  {
    d, v' := Digit(v, p, b, Value(ds, b), value, k);
    PrintsOne(value, b, n, ds, v, k, p, d, v');
    p' := p / b;
  }

  /** The character of a digit, by arithmetic on character codes. */
  method DigitToChar(digit: nat, fmtCase: bool) returns (c: char)
    requires digit < 16
    ensures c == DigitChar(digit, fmtCase)
  {
    var d := digit + '0' as int;
    if d > '9' as int {
      d := d + (if fmtCase then 'A' else 'a') as int - '0' as int - 10;
    }
    c := d as char;
  }

  lemma CharsLast(ds: seq<nat>, d: nat, upper: bool)
    requires AllBelow(ds, 36) && d < 36
    ensures Chars(ds + [d], upper) == Chars(ds, upper) + [DigitChar(d, upper)]
  { }

  /** One digit and the rest. */
  method Digit(v: nat, p: nat, ghost b: nat, ghost high: nat, ghost value: nat, ghost k: nat) returns (d: nat, r: nat)
    requires p > 0 && v < Pow(b, k) && p == (if k > 0 then Pow(b, k - 1) else 0)
    requires Times(high, Pow(b, k)) + v == value
    ensures d < b && r < p && Times(Times(high, b) + d, p) + r == value
    ensures p <= v ==> d != 0
  {
    hide Times;
    TakesDigit(high, v, value, p, b);
    d := v / p;
    r := v % p;
    if p <= v { NotZero(v, p); }
  }

  lemma NotZero(v: nat, p: nat)
    requires 0 < p <= v
    ensures v / p != 0
  { }

  /** alt_log_repchar. */
  method RepChar(c: char, r: int) returns (out: string)
    ensures out == Repeat(c, r)
  {
    var n := r;
    out := "";
    while n > 0
      invariant |out| == (if r > 0 then r - (if n > 0 then n else 0) else 0)
      invariant forall i | 0 <= i < |out| :: out[i] == c
      decreases n
    {
      out := out + [c];
      n := n - 1;
    }
  }

  function Magnitude(n: int): nat { if n < 0 then -n else n }

  /** The digits of a number and how many there are. */
  method PrintNumber(v: U32, fmtBase: nat, fmtCase: bool) returns (digits: string, digitCount: nat)
    requires fmtBase in {8, 10, 16}
    ensures AllBelow(Notation(v, fmtBase), 36) && digits == Chars(Notation(v, fmtBase), fmtCase)
    ensures digitCount == |Notation(v, fmtBase)|
  {
    var p;
    digitCount, p := CountDigits(v, fmtBase);
    ghost var ds;
    digits, ds := PrintDigits(v, p, fmtBase, fmtCase, digitCount);
    NaturalIsUnique(ds, Notation(v, fmtBase), v, fmtBase);
  }

  /** The sign of a conversion and the number to print behind it: a negative one is `~v + 1`. */
  method SplitSign(word: U32, c: Conversion) returns (v: U32, sign: bool)
    ensures v == Magnitude(Number(c, word)) && sign == (Number(c, word) < 0)
  {
    v, sign := word, false;
    if IsSigned(c) && v >= SIGN {
      v := (WORD - 1 - v) + 1;
      sign := true;
    }
  }

  /** The digits in their field: a sign before leading zeros, or after spaces. */
  method PrintField(digits: string, digitCount: nat, sign: bool, fmtLeadingZero: bool, width: int,
                    ghost ds: seq<nat>, ghost upper: bool)
    returns (out: string)
    requires AllBelow(ds, 36) && digits == Chars(ds, upper) && digitCount == |ds|
    ensures out == Layout(ds, sign, fmtLeadingZero, width, upper)
  {
    var fmtBeforeDecimal := width - digitCount;
    if sign {
      fmtBeforeDecimal := fmtBeforeDecimal - 1;
    }
    if fmtLeadingZero {
      var pad := RepChar('0', fmtBeforeDecimal);
      out := (if sign then "-" else "") + pad + digits;
    } else {
      var pad := RepChar(' ', fmtBeforeDecimal);
      out := pad + (if sign then "-" else "") + digits;
    }
  }

  /** Integer conversions of alt_log_private_printf; a field width that is not given is -1. */
  method PrintInteger(word: U32, c: Conversion, fmtLeadingZero: bool, width: int) returns (out: string)
    ensures AllBelow(Notation(Magnitude(Number(c, word)), BaseOf(c)), 36)
    ensures out == Layout(Notation(Magnitude(Number(c, word)), BaseOf(c)), Number(c, word) < 0, fmtLeadingZero, width,
                          c.UpperX?)
  {
    var fmtBase := BaseOf(c);
    var v, sign := SplitSign(word, c);
    var digits, digitCount := PrintNumber(v, fmtBase, c.UpperX?);
    out := PrintField(digits, digitCount, sign, fmtLeadingZero, width, Notation(v, fmtBase), c.UpperX?);
  }

  /** The base of a conversion, and the number it takes a word for: two's complement for `d` and `i`. */
  lemma ConversionIs(word: U32, c: Conversion)
    ensures BaseOf(c) == if c.O? then 8 else if c.X? || c.UpperX? then 16 else 10
    ensures Number(c, word) == word || Number(c, word) == word - 0x1_0000_0000
    ensures if c.D? || c.I? then -0x8000_0000 <= Number(c, word) < 0x8000_0000 else Number(c, word) >= 0
  { }

  /** What is printed reads back as the number, and fills the field if it is shorter. */
  lemma PrintedRoundTrip(word: U32, c: Conversion, leadingZero: bool, width: int)
    ensures var n, b := Number(c, word), if c.O? then 8 else if c.X? || c.UpperX? then 16 else 10;
            var ds := Notation(Magnitude(n), BaseOf(c));
            var natural := |ds| + (if n < 0 then 1 else 0);
            && AllBelow(ds, 36)
            && Parse(Layout(ds, n < 0, leadingZero, width, c.UpperX?), b) == n
            && |Layout(ds, n < 0, leadingZero, width, c.UpperX?)| == if width > natural then width else natural
  {
    var n := Number(c, word);
    var ds := Notation(Magnitude(n), BaseOf(c));
    LayoutRoundTrip(ds, n < 0, leadingZero, width, c.UpperX?, BaseOf(c));
    LayoutLength(ds, n < 0, leadingZero, width, c.UpperX?);
  }

  /**
   The characters of a layout: what the field is wider is filled with zeros behind the sign, or
   with spaces before it, and the digits beyond 9 are capital letters if and only if `upper` says so.
   */
  lemma LayoutIs(ds: seq<nat>, negative: bool, leadingZero: bool, width: int, upper: bool)
    requires AllBelow(ds, 16) && AllBelow(ds, 36)
    ensures var text, sign := Layout(ds, negative, leadingZero, width, upper), if negative then 1 else 0;
            var pad := if width > sign + |ds| then width - sign - |ds| else 0;
            && |text| == pad + sign + |ds|
            && (negative ==> text[if leadingZero then 0 else pad] == '-')
            && (leadingZero ==> forall i | sign <= i < sign + pad :: text[i] == '0')
            && (!leadingZero ==> forall i | 0 <= i < pad :: text[i] == ' ')
            && forall i | 0 <= i < |ds| ::
                 text[pad + sign + i] == (if upper then "0123456789ABCDEF" else "0123456789abcdef")[ds[i]]
  {
    var text, sign := Layout(ds, negative, leadingZero, width, upper), if negative then 1 else 0;
    LayoutLength(ds, negative, leadingZero, width, upper);
    var pad := |text| - sign - |ds|;
    forall i | 0 <= i < |ds|
      ensures text[pad + sign + i] == (if upper then "0123456789ABCDEF" else "0123456789abcdef")[ds[i]]
    {
      assert text[pad + sign + i] == Chars(ds, upper)[i];
      DigitCharIs(ds[i], upper);
    }
  }

  lemma DigitCharIs(d: nat, upper: bool)
    requires d < 16
    ensures DigitChar(d, upper) == (if upper then "0123456789ABCDEF" else "0123456789abcdef")[d]
  { }

  // ---------------------------------------------------------------- printing by nibbles

  /** `v >> (4 * k)`. */
  function Shifted(v: nat, k: nat): nat
    decreases k
  {
    if k == 0 then v else Shifted(v / 16, k - 1)
  }

  /** `(v & (0xF << (4 * k))) >> (4 * k)`. */
  function Nibble(v: nat, k: nat): nat { Shifted(v, k) % 16 }

  lemma {:induction false} ShiftedOnce(v: nat, k: nat)
    ensures Shifted(v, k) / 16 == Shifted(v, k + 1)
    decreases k
  {
    if k > 0 { ShiftedOnce(v / 16, k - 1); }
  }

  lemma NibbleBelow(v: nat, k: nat)
    ensures Shifted(v, k) == Times(Shifted(v, k + 1), 16) + Nibble(v, k) && Nibble(v, k) < 16
  {
    ShiftedOnce(v, k);
    TimesIs(Shifted(v, k + 1), 16);
  }

  lemma {:induction false} ShiftedOut(v: nat, k: nat)
    requires v < Pow(16, k)
    ensures Shifted(v, k) == 0
    decreases k
  {
    if k > 0 {
      TimesIs(16, Pow(16, k - 1));
      ShiftedOut(v / 16, k - 1);
    } else {
      assert Pow(16, 0) == 1;
    }
  }

  lemma EightNibbles(v: U32)
    ensures Shifted(v, 8) == 0
  {
    TimesIs(16, 1);
    TimesIs(16, 16);
    TimesIs(16, 256);
    TimesIs(16, 4096);
    TimesIs(16, 65536);
    TimesIs(16, 1048576);
    TimesIs(16, 16777216);
    TimesIs(16, 268435456);
    assert Pow(16, 4) == 65536 by { assert Pow(16, 2) == 256; }
    assert Pow(16, 8) == WORD by { assert Pow(16, 6) == 16777216; }
    ShiftedOut(v, 8);
  }

  /** Skipping leading zeros: the place of the first nibble that is not zero. */
  method FirstNibble(v: U32) returns (digit_shift: int)
    requires v > 0
    ensures 0 <= digit_shift <= 28 && digit_shift % 4 == 0
    ensures Nibble(v, digit_shift / 4) != 0 && Shifted(v, digit_shift / 4 + 1) == 0
  {
    digit_shift := 28;
    EightNibbles(v);
    while Nibble(v, digit_shift / 4) == 0
      invariant 0 <= digit_shift <= 28 && digit_shift % 4 == 0 && Shifted(v, digit_shift / 4 + 1) == 0
      decreases digit_shift
    {
      NibbleBelow(v, digit_shift / 4);
      assert digit_shift > 0;
      digit_shift := digit_shift - 4;
    }
  }

  /** `%x` of alt_printf. */
  method PrintHex(v: U32) returns (out: string)
    ensures AllBelow(Notation(v, 16), 36) && out == Chars(Notation(v, 16), false)
  {
    if v == 0 {
      return "0";
    }
    var digit_shift := FirstNibble(v);
    ghost var ds;
    out, ds := PrintNibbles(v, digit_shift);
    NaturalIsUnique(ds, Notation(v, 16), v, 16);
  }

  /** The digits from the first nibble that is not zero on. */
  method PrintNibbles(v: U32, first: int) returns (out: string, ghost ds: seq<nat>)
    requires 0 <= first <= 28 && first % 4 == 0 && Nibble(v, first / 4) != 0 && Shifted(v, first / 4 + 1) == 0
    ensures IsNatural(ds, v, 16) && AllBelow(ds, 36) && out == Chars(ds, false)
  {
    hide Times;
    var digit_shift := first;
    out, ds := "", [];
    assert Value([], 16) == 0;
    while digit_shift >= 0
      invariant -4 <= digit_shift <= 28 && digit_shift % 4 == 0
      invariant AllBelow(ds, 16) && AllBelow(ds, 36) && out == Chars(ds, false)
      invariant Value(ds, 16) == Shifted(v, (digit_shift + 4) / 4)
      invariant if ds == [] then digit_shift >= 0 && Nibble(v, digit_shift / 4) != 0 else ds[0] != 0
      decreases digit_shift
    {
      ghost var k := digit_shift / 4;
      assert (digit_shift + 4) / 4 == k + 1;
      NibbleBelow(v, k);
      var digit := Nibble(v, digit_shift / 4);
      ValueLast(ds, digit, 16);
      CharsLast(ds, digit, false);
      out := out + [if digit <= 9 then '0' + digit as char else 'a' + (digit - 10) as char];
      ds := ds + [digit];
      digit_shift := digit_shift - 4;
    }
  }

  /** The two printers agree on every word: `%x` without a field width is what alt_printf prints. */
  lemma HexPrintersAgree(v: U32)
    ensures AllBelow(Notation(v, 16), 36)
    ensures Layout(Notation(Magnitude(Number(X, v)), BaseOf(X)), Number(X, v) < 0, false, -1, false)
         == Chars(Notation(v, 16), false)
  {
    assert Repeat(' ', -1 - |Notation(v, 16)|) == "";
  }
}
