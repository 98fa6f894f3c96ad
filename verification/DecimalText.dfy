/**
 * Decimal price text (CNY) to integer micro-CNY: `decimalCnyToMicro`.
 * The reference meaning is a rational number: the digits of the text over a power of ten.
 */
module DecimalText {
  import opened Common
  import opened Rounding

  /** White space and line terminators, as String.prototype.trim removes them. */
  predicate IsSpace(c: char) {
    var n := c as int;
    || 9 <= n <= 13 || n == 32 || n == 0xA0 || n == 0x1680 || 0x2000 <= n <= 0x200A
    || n == 0x2028 || n == 0x2029 || n == 0x202F || n == 0x205F || n == 0x3000 || n == 0xFEFF
  }

  predicate AllSpace(s: string) { forall i :: 0 <= i < |s| ==> IsSpace(s[i]) }

  predicate IsDigit(c: char) { '0' <= c <= '9' }

  predicate AllDigits(s: string) { forall i :: 0 <= i < |s| ==> IsDigit(s[i]) }

  type Digits = s: string | AllDigits(s) witness ""

  function Pow10(n: nat): (p: nat)
    ensures p > 0
  {
    if n == 0 then 1 else 10 * Pow10(n - 1)
  }

  function DigitValue(c: char): (v: nat)
    requires IsDigit(c)
    ensures v < 10
  {
    c as int - '0' as int
  }

  /** What a run of digits is worth; the source's `BigInt(text)`. */
  function Value(s: Digits): nat {
    if s == "" then 0 else 10 * Value(s[..|s| - 1]) + DigitValue(s[|s| - 1])
  }

  /** v with n zeros written after it. */
  function Shift(v: nat, n: nat): nat {
    if n == 0 then v else 10 * Shift(v, n - 1)
  }

  lemma {:induction false} ShiftIsProduct(v: nat, n: nat)
    ensures Shift(v, n) == v * Pow10(n)
  {
    if n > 0 {
      ShiftIsProduct(v, n - 1);
      TenTimes(v, Pow10(n - 1));
    }
  }

  lemma TenTimes(v: nat, p: nat)
    ensures v * (10 * p) == 10 * (v * p)
  {
  }

  lemma {:induction false} ValueConcat(s: Digits, t: Digits)
    ensures AllDigits(s + t)
    ensures Value(s + t) == Shift(Value(s), |t|) + Value(t)
    ensures Value(t) < Pow10(|t|)
  {
    if t == "" {
      assert s + t == s;
    } else {
      var u := t[..|t| - 1];
      ValueConcat(s, u);
      assert (s + t)[..|s + t| - 1] == s + u;
    }
  }

  lemma {:induction false} ValueZeros(n: nat)
    ensures AllDigits(Zeros(n)) && Value(Zeros(n)) == 0
  {
    if n > 0 {
      ValueZeros(n - 1);
      assert Zeros(n)[..n - 1] == Zeros(n - 1);
    }
  }

  function Zeros(n: nat): (z: string)
    ensures |z| == n && forall i :: 0 <= i < n ==> z[i] == '0'
  {
    seq(n, i => '0')
  }

  // ----- String.prototype.trim and the pattern ^(\d+)(?:\.(\d+))?$ -----

  function TrimStart(s: string): string {
    if s != "" && IsSpace(s[0]) then TrimStart(s[1..]) else s
  }

  function TrimEnd(s: string): string {
    if s != "" && IsSpace(s[|s| - 1]) then TrimEnd(s[..|s| - 1]) else s
  }

  function Trim(s: string): string { TrimEnd(TrimStart(s)) }

  function LeadingDigits(s: string): (n: nat)
    ensures n <= |s| && AllDigits(s[..n])
    ensures n < |s| ==> !IsDigit(s[n])
  {
    if s == "" || !IsDigit(s[0]) then 0
    else
      var n := LeadingDigits(s[1..]);
      assert s[..n + 1] == [s[0]] + s[1..][..n];
      n + 1
  }

  /** The two capture groups, or nothing when the pattern does not match. */
  function MatchDecimal(t: string): Option<(Digits, Digits)> {
    var d := LeadingDigits(t);
    if d == 0 then None
    else if d == |t| then Some((t[..d], ""))
    else if t[d] == '.' && d + 1 < |t| && AllDigits(t[d + 1..]) then Some((t[..d], t[d + 1..]))
    else None
  }

  /** The source's function: seven fraction digits are looked at, the seventh rounds the sixth. */
  function DecimalCnyToMicro(text: string): Result<nat> {
    match MatchDecimal(Trim(text))
    case None => Err(Invalid)
    case Some((whole, fraction)) => Ok(MicroOf(whole, fraction))
  }

  function MicroOf(whole: Digits, fraction: Digits): nat {
    ValueZeros(7);
    ValueConcat(fraction, Zeros(7));
    var frac7 := (fraction + Zeros(7))[..7];
    var micro6 := Value(frac7[..6]);
    var roundDigit := Value(frac7[6..7]);
    Value(whole) * 1_000_000 + micro6 + (if roundDigit >= 5 then 1 else 0)
  }

  // ----- What it computes -----

  /** A plain decimal numeral: digits, and perhaps a point and more digits. */
  function Numeral(whole: Digits, fraction: Digits): string {
    if fraction == "" then whole else whole + "." + fraction
  }

  predicate IsNumeral(text: string, whole: Digits, fraction: Digits) {
    whole != "" && text == Numeral(whole, fraction)
  }

  lemma {:induction false} TrimPads(lead: string, core: string, tail: string)
    requires AllSpace(lead) && AllSpace(tail)
    requires core != "" && !IsSpace(core[0]) && !IsSpace(core[|core| - 1])
    ensures Trim(lead + core + tail) == core
    decreases |lead| + |tail|
  {
    var s := lead + core + tail;
    if lead != "" {
      assert s[1..] == lead[1..] + core + tail;
      assert s[0] == lead[0];
      TrimPads(lead[1..], core, tail);
      assert TrimStart(s) == TrimStart(s[1..]);
    } else if tail != "" {
      assert s == core + tail && s[0] == core[0];
      assert TrimStart(s) == s;
      var cut := tail[..|tail| - 1];
      assert s[..|s| - 1] == lead + core + cut;
      assert s[|s| - 1] == tail[|tail| - 1];
      TrimPads(lead, core, cut);
      assert TrimStart(lead + core + cut) == lead + core + cut by {
        assert (lead + core + cut)[0] == core[0];
      }
    } else {
      assert s == core;
    }
  }

  lemma {:induction false} TrimStartSplit(s: string) returns (lead: string)
    ensures AllSpace(lead) && s == lead + TrimStart(s)
  {
    if s != "" && IsSpace(s[0]) {
      var rest := TrimStartSplit(s[1..]);
      lead := [s[0]] + rest;
      assert s == [s[0]] + s[1..];
    } else {
      lead := "";
    }
  }

  lemma {:induction false} TrimEndSplit(s: string) returns (tail: string)
    ensures AllSpace(tail) && s == TrimEnd(s) + tail
  {
    if s != "" && IsSpace(s[|s| - 1]) {
      var rest := TrimEndSplit(s[..|s| - 1]);
      tail := rest + [s[|s| - 1]];
      assert s == s[..|s| - 1] + [s[|s| - 1]];
    } else {
      tail := "";
    }
  }

  lemma MatchesExactlyNumerals(text: string, whole: Digits, fraction: Digits)
    ensures MatchDecimal(text) == Some((whole, fraction)) <==> IsNumeral(text, whole, fraction)
  {
    var d := LeadingDigits(text);
    if IsNumeral(text, whole, fraction) {
      assert text[..|whole|] == whole;
      assert forall i :: 0 <= i < |whole| ==> text[i] == whole[i];
      assert d >= |whole|;
      assert fraction != "" ==> text[|whole|] == '.' && text[|whole| + 1..] == fraction;
      assert forall i :: 0 <= i < d ==> text[..d][i] == text[i];
      assert d == |whole|;
    }
  }

  /** Any numeral, however long its fraction and whatever white space surrounds it, becomes the
      nearest micro-CNY with halves going up. */
  lemma PriceTextExact(lead: string, whole: Digits, fraction: Digits, tail: string)
    requires AllSpace(lead) && AllSpace(tail) && whole != ""
    ensures AllDigits(whole + fraction)
    ensures
      var r := DecimalCnyToMicro(lead + Numeral(whole, fraction) + tail);
      r.Ok? && IsHalfUp(Value(whole + fraction) * 1_000_000, Pow10(|fraction|), r.value)
  {
    var numeral := Numeral(whole, fraction);
    assert numeral[0] == whole[0];
    assert numeral[|numeral| - 1] == if fraction == "" then whole[|whole| - 1] else fraction[|fraction| - 1];
    DigitIsNoSpace(numeral[0]);
    DigitIsNoSpace(numeral[|numeral| - 1]);
    TrimPads(lead, numeral, tail);
    MatchesExactlyNumerals(numeral, whole, fraction);
    MicroOfExact(whole, fraction);
  }

  lemma DigitIsNoSpace(c: char)
    requires IsDigit(c)
    ensures !IsSpace(c)
  {
  }

  /** Nothing but a padded numeral is accepted. */
  lemma PriceTextRejects(text: string) returns (lead: string, whole: Digits, fraction: Digits, tail: string)
    requires DecimalCnyToMicro(text).Ok?
    ensures AllSpace(lead) && AllSpace(tail) && whole != ""
    ensures text == lead + Numeral(whole, fraction) + tail
  {
    lead := TrimStartSplit(text);
    tail := TrimEndSplit(TrimStart(text));
    var m := MatchDecimal(Trim(text)).value;
    whole, fraction := m.0, m.1;
    MatchesExactlyNumerals(Trim(text), whole, fraction);
    assert text == lead + (Trim(text) + tail);
  }

  /** Looking at seven digits only is enough: the value is the half-up rounding of the whole numeral. */
  lemma MicroOfExact(whole: Digits, fraction: Digits)
    ensures AllDigits(whole + fraction)
    ensures IsHalfUp(Value(whole + fraction) * 1_000_000, Pow10(|fraction|), MicroOf(whole, fraction))
  {
    hide Value, Shift, Pow10, IsHalfUp;
    var padded := PaddedFraction(fraction);
    var a, d, rest := Value(padded[..6]), Value(padded[6..7]), Value(padded[7..]);
    ValueConcat(whole, fraction);
    ShiftIsProduct(Value(whole), |fraction|);
    ShiftIsProduct(10 * a + d, |fraction|);
    SevenDigitsSuffice(Value(whole), Value(fraction), Pow10(|fraction|), a, d, rest);
    assert padded[..7][..6] == padded[..6] && padded[..7][6..7] == padded[6..7];
  }

  lemma PaddedFraction(fraction: Digits) returns (padded: Digits)
    ensures padded == fraction + Zeros(7)
    ensures Value(padded[6..7]) < 10 && Value(padded[7..]) < Pow10(|fraction|)
    ensures Value(fraction) * 10_000_000
         == Shift(10 * Value(padded[..6]) + Value(padded[6..7]), |fraction|) + Value(padded[7..])
  {
    ValueZeros(7);
    ValueConcat(fraction, Zeros(7));
    padded := fraction + Zeros(7);
    hide Value, Shift, Pow10;
    ShiftSeven(Value(fraction));
    var a: Digits, b: Digits, c: Digits := padded[..6], padded[6..7], padded[7..];
    assert padded == a + b + c;
    SplitThree(a, b, c);
  }

  lemma SplitThree(a: Digits, b: Digits, c: Digits)
    requires |b| == 1
    ensures AllDigits(a + b + c)
    ensures Value(a + b + c) == Shift(10 * Value(a) + Value(b), |c|) + Value(c)
    ensures Value(b) < 10 && Value(c) < Pow10(|c|)
  {
    hide Value, Shift, Pow10;
    AppendDigit(a, b);
    var ab: Digits := a + b;
    ValueConcat(ab, c);
    assert ab + c == a + b + c;
  }

  lemma AppendDigit(a: Digits, b: Digits)
    requires |b| == 1
    ensures AllDigits(a + b)
    ensures Value(a + b) == 10 * Value(a) + Value(b) && Value(b) < 10
  {
    ValueConcat(a, b);
    assert Shift(Value(a), 1) == 10 * Shift(Value(a), 0);
    assert Pow10(1) == 10 * Pow10(0);
  }

  lemma ShiftSeven(v: nat)
    ensures Shift(v, 7) == v * 10_000_000
  {
    assert Shift(v, 3) == 1000 * v by {
      assert Shift(v, 1) == 10 * Shift(v, 0);
      assert Shift(v, 2) == 10 * Shift(v, 1);
    }
    assert Shift(v, 4) == 10 * Shift(v, 3);
    assert Shift(v, 5) == 10 * Shift(v, 4);
    assert Shift(v, 6) == 10 * Shift(v, 5);
    assert Shift(v, 7) == 10 * Shift(v, 6);
  }

  lemma SevenDigitsSuffice(w: nat, f: nat, p: nat, a: nat, d: nat, t: nat)
    requires p > 0 && d < 10 && t < p
    requires f * 10_000_000 == (10 * a + d) * p + t
    ensures IsHalfUp((w * p + f) * 1_000_000, p, w * 1_000_000 + a + (if d >= 5 then 1 else 0))
  {
    var up := if d >= 5 then 1 else 0;
    var wp, ap, dp := w * p, a * p, d * p;
    assert (10 * a + d) * p == 10 * ap + dp;
    MulLe(d, if d >= 5 then 9 else 4, p);
    MulLe(if d >= 5 then 5 else 0, d, p);
    assert (w * 1_000_000 + a + up) * p == 1_000_000 * wp + ap + up * p;
  }
}
