/** What the numbers printed into a manifest stand for: the conversion of a number to a text in
    ECMAScript, which switches to an exponent outside a certain range. */
module UpdateManifestNumbers {
  import opened Text
  import opened UpdateManifest

  function Pow10(n: nat): nat {
    if n == 0 then 1 else 10 * Pow10(n - 1)
  }

  lemma {:induction false} PowSum(m: nat, n: nat)
    ensures Pow10(m + n) == Pow10(m) * Pow10(n) && Pow10(m) > 0
  {
    if m > 0 {
      PowSum(m - 1, n);
      assert Pow10(m + n) == 10 * Pow10(m - 1 + n);
      assert 10 * (Pow10(m - 1) * Pow10(n)) == 10 * Pow10(m - 1) * Pow10(n);
    }
  }

  lemma {:induction false} ValueOfJoined(a: string, b: string)
    requires AllDigits(a) && AllDigits(b)
    ensures AllDigits(a + b) && NatValue(a + b) == NatValue(a) * Pow10(|b|) + NatValue(b)
    decreases |b|
  {
    if b == [] {
      assert a + b == a;
    } else {
      var n := |b| - 1;
      var front := b[..n];
      ValueOfJoined(a, front);
      var s := a + b;
      assert s[..|s| - 1] == a + front && s[|s| - 1] == b[n];
      assert NatValue(s) == 10 * NatValue(a + front) + DigitValue(b[n]);
      assert NatValue(b) == 10 * NatValue(front) + DigitValue(b[n]);
      Distributes(NatValue(a), Pow10(n), NatValue(front));
    }
  }

  lemma Distributes(x: nat, p: nat, y: nat)
    ensures 10 * (x * p + y) == x * (10 * p) + 10 * y
  {}

  lemma {:induction false} ValueBound(s: string)
    requires AllDigits(s)
    ensures NatValue(s) < Pow10(|s|)
    ensures (forall i | 0 <= i < |s| :: s[i] == '0') ==> NatValue(s) == 0
    ensures s != [] && s[0] != '0' ==> Pow10(|s| - 1) <= NatValue(s)
  {
    if s != [] {
      var n := |s| - 1;
      ValueBound(s[..n]);
      assert DigitValue('0') == 0;
      if n > 0 { assert s[..n][0] == s[0]; }
      if s[n] != '0' && n == 0 { assert DigitValue(s[0]) >= 1; }
    }
  }

  /** A number is printed without an exponent exactly when it is zero, or from a millionth on and below
      ten to the 21st; the number is `whole` and `fraction` read as digits behind the point. */
  lemma PlainExactlyWhen(d: Decimal)
    ensures IsPlain(d) <==>
      && d.whole < 1000000000000000000000
      && (d.whole > 0 || d.fraction == [] || 1000000 * NatValue(d.fraction) >= Pow10(|d.fraction|))
  {
    var f := d.fraction;
    if d.whole == 0 && f != [] {
      MillionthOn(f);
    }
  }

  lemma MillionthOn(f: string)
    requires AllDigits(f) && f != [] && f[|f| - 1] != '0'
    ensures LeadingZeros(f) < 6 <==> 1000000 * NatValue(f) >= Pow10(|f|)
  {
    hide LeadingZeros, Pow10, NatValue;
    FractionRange(f);
    var k := LeadingZeros(f);
    Millionth(k, |f| - k, NatValue(f));
  }

  /** A fraction with `k` zeros in front has its first digit in the next place. */
  lemma FractionRange(f: string)
    requires AllDigits(f) && f != [] && f[|f| - 1] != '0'
    ensures var k := LeadingZeros(f); k < |f| && Pow10(|f| - k - 1) <= NatValue(f) < Pow10(|f| - k)
  {
    hide LeadingZeros, NatValue, Pow10;
    var k := LeadingZeros(f);
    assert k < |f| by { assert f[|f| - 1] != '0'; }
    var zeros, rest := f[..k], f[k..];
    assert f == zeros + rest;
    ValueOfJoined(zeros, rest);
    ValueBound(zeros);
    ValueBound(rest);
  }

  lemma Millionth(k: nat, m: nat, v: nat)
    requires m > 0 && Pow10(m - 1) <= v < Pow10(m)
    ensures k < 6 <==> 1000000 * v >= Pow10(k + m)
  {
    hide Pow10;
    SmallPowers(k);
    if k < 6 {
      PowSum(k + 1, m - 1);
      Scaled(Pow10(k + 1), 1000000, Pow10(m - 1));
    } else {
      PowSum(k, m);
      Scaled(1000000, Pow10(k), Pow10(m));
    }
  }

  lemma Scaled(a: nat, b: nat, p: nat)
    requires a <= b
    ensures a * p <= b * p
  {}

  lemma SmallPowers(k: nat)
    ensures k < 6 ==> Pow10(k + 1) <= 1000000
    ensures k >= 6 ==> Pow10(k) >= 1000000
  {
    assert Pow10(6) == 1000000 && Pow10(5) == 100000 && Pow10(4) == 10000 && Pow10(3) == 1000 && Pow10(2) == 100 && Pow10(1) == 10;
    if k >= 6 {
      PowSum(k - 6, 6);
      Scaled(1, Pow10(k - 6), 1000000);
    }
  }

  lemma {:induction false} StrippedZeros(s: string)
    requires AllDigits(s)
    ensures var r := StripZeros(s);
      && r <= s && (r == [] || r[|r| - 1] != '0') && forall i | |r| <= i < |s| :: s[i] == '0'
  {
    if s != [] && s[|s| - 1] == '0' { StrippedZeros(s[..|s| - 1]); }
  }

  /** The digits of a number and how many of them stand behind the point. */
  function AllOf(d: Decimal): string {
    NatText(d.whole) + d.fraction
  }

  /** The digits `first` and `others`, with the point behind the first, times ten to the power, are the
      number; a negative power is given by its size. */
  predicate MakeUp(d: Decimal, first: char, others: string, power: nat)
    requires AllDigits([first] + others) && AllDigits(AllOf(d))
  {
    if d.whole > 0 then NatValue([first] + others) * Pow10(power + |d.fraction|) == NatValue(AllOf(d)) * Pow10(|others|)
    else NatValue([first] + others) * Pow10(|d.fraction|) == NatValue(AllOf(d)) * Pow10(|others| + power)
  }

  lemma AllAreDigits(d: Decimal)
    ensures AllDigits(AllOf(d))
  {}

  /** A number printed with an exponent is printed as one digit other than zero, the others behind a
      point without trailing zeros, and a power of ten that together make up the number. */
  lemma ExponentMeans(d: Decimal) returns (first: char, others: string, power: nat)
    requires !IsPlain(d)
    ensures IsDigit(first) && first != '0' && (others == [] || others[|others| - 1] != '0') && power > 0
    ensures AllDigits(AllOf(d)) && AllDigits([first] + others) && MakeUp(d, first, others, power)
    ensures DecimalText(d) == (if d.negative then "-" else "") + Scientific(first, others, (if d.whole > 0 then "+" else "-") + NatText(power))
  {
    hide Scientific, StripZeros, LeadingZeros, IsPlain, MakeUp, AllOf, NatText;
    AllAreDigits(d);
    BigIsNotPlain(d);
    if d.whole > 0 {
      var digits := NatText(d.whole);
      first, others, power := digits[0], StripZeros(digits[1..] + d.fraction), |digits| - 1;
      BigMakesUp(d);
    } else {
      SomeDigit(d);
      var k := LeadingZeros(d.fraction);
      first, others, power := d.fraction[k], d.fraction[k + 1..], k + 1;
      SmallMakesUp(d);
    }
  }

  lemma BigMakesUp(d: Decimal)
    requires d.whole >= 10
    ensures var digits := NatText(d.whole); var tail := digits[1..] + d.fraction; var others := StripZeros(tail);
      && digits[0] != '0' && |digits| > 1 && (others == [] || others[|others| - 1] != '0')
      && AllDigits(AllOf(d)) && AllDigits([digits[0]] + others) && MakeUp(d, digits[0], others, |digits| - 1)
  {
    hide StripZeros, NatValue, Pow10, NatText;
    var digits := NatText(d.whole);
    var tail := digits[1..] + d.fraction;
    AllAreDigits(d);
    StrippedZeros(tail);
    NoZeroFirst(d.whole);
    LongWhole(d.whole);
    var others := StripZeros(tail);
    var head, zeros := [digits[0]] + others, tail[|others|..];
    assert tail == others + zeros;
    assert AllOf(d) == head + zeros;
    ValueOfJoined(head, zeros);
    ValueBound(zeros);
    PowSum(|zeros|, |others|);
    assert |digits| - 1 + |d.fraction| == |zeros| + |others|;
    Regroup(NatValue(head), Pow10(|zeros|), Pow10(|others|));
  }

  lemma SmallMakesUp(d: Decimal)
    requires d.whole == 0 && LeadingZeros(d.fraction) < |d.fraction|
    ensures var k := LeadingZeros(d.fraction); var first, others := d.fraction[k], d.fraction[k + 1..];
      && first != '0' && (others == [] || others[|others| - 1] != '0')
      && AllDigits(AllOf(d)) && AllDigits([first] + others) && MakeUp(d, first, others, k + 1)
  {
    hide LeadingZeros, NatValue, Pow10;
    var k := LeadingZeros(d.fraction);
    AllAreDigits(d);
    var head, zeros := [d.fraction[k]] + d.fraction[k + 1..], "0" + d.fraction[..k];
    assert NatText(0) == "0";
    assert AllOf(d) == zeros + head;
    ValueOfJoined(zeros, head);
    ValueBound(zeros);
  }

  lemma Regroup(x: nat, p: nat, q: nat)
    ensures x * (p * q) == x * p * q
  {}

  lemma BigIsNotPlain(d: Decimal)
    requires !IsPlain(d)
    ensures d.whole > 0 ==> d.whole >= 10
    ensures d.whole == 0 ==> d.fraction != []
  {}

  lemma SomeDigit(d: Decimal)
    requires d.fraction != []
    ensures LeadingZeros(d.fraction) < |d.fraction|
  {
    hide LeadingZeros;
    assert d.fraction[|d.fraction| - 1] != '0';
  }

  lemma {:induction false} NoZeroFirst(n: nat)
    requires n > 0
    ensures NatText(n)[0] != '0'
  {
    if n >= 10 { NoZeroFirst(n / 10); }
  }

  lemma LongWhole(n: nat)
    requires n >= 10
    ensures |NatText(n)| > 1
  {
    assert |NatText(n / 10)| > 0;
  }

  // Reading numbers

  /** `-?\d+(?:\.\d+)?` */
  predicate IsWritten(s: string, negative: bool, whole: string, fraction: string) {
    && s == (if negative then "-" else "") + WithPoint(whole, fraction)
    && whole != "" && AllDigits(whole) && AllDigits(fraction)
  }

  /** The number is the whole part and the digits behind the point, but for zeros at their end; zero has no
      sign. */
  predicate Denotes(d: Decimal, negative: bool, whole: string, fraction: string) {
    && AllDigits(whole) && d.whole == NatValue(whole) && d.fraction <= fraction
    && (forall i | |d.fraction| <= i < |fraction| :: fraction[i] == '0')
    && (d.negative <==> negative && (d.whole > 0 || d.fraction != ""))
  }

  function WithPoint(whole: string, fraction: string): string {
    whole + if fraction == "" then "" else "." + fraction
  }

  lemma ReadIsUnsigned(negative: bool, u: string) returns (whole: string, fraction: string)
    requires ParseUnsigned(negative, u).Some?
    ensures u == WithPoint(whole, fraction) && whole != "" && AllDigits(whole) && AllDigits(fraction)
    ensures ParseUnsigned(negative, u).value == MakeDecimal(negative, whole, fraction)
  {
    hide NatValue, StripZeros, MakeDecimal, DigitRun, AllDigits;
    var n := DigitRun(u);
    whole := u[..n];
    if n == |u| {
      fraction := "";
      NoDigitsAreDigits();
    } else {
      fraction := u[n + 1..];
      assert u == whole + ("." + fraction);
    }
  }

  lemma NoDigitsAreDigits()
    ensures AllDigits("")
  {}

  lemma ReadIsWritten(s: string) returns (negative: bool, whole: string, fraction: string)
    requires ParseNumber(s).Some?
    ensures IsWritten(s, negative, whole, fraction) && ParseNumber(s).value == MakeDecimal(negative, whole, fraction)
  {
    hide NatValue, StripZeros, MakeDecimal, ParseUnsigned, AllDigits, WithPoint;
    negative := s != "" && s[0] == '-';
    var u := if negative then s[1..] else s;
    whole, fraction := ReadIsUnsigned(negative, u);
    assert s == (if negative then "-" else "") + u;
  }

  lemma WrittenIsRead(s: string, negative: bool, whole: string, fraction: string)
    requires IsWritten(s, negative, whole, fraction)
    ensures ParseNumber(s) == Some(MakeDecimal(negative, whole, fraction))
  {
    hide NatValue, StripZeros, MakeDecimal, DigitRun;
    var u := WithPoint(whole, fraction);
    assert u[0] == whole[0] && IsDigit(whole[0]);
    assert s == (if negative then "-" else "") + u;
    if negative { assert s[1..] == u; } else { assert s == u; }
    RunIsWhole(whole, fraction);
  }

  /** A text is read as a number exactly when it is written as one, and as the number it is written for. */
  lemma NumberIsRead(s: string, d: Decimal)
    ensures ParseNumber(s) == Some(d) <==>
      exists negative, whole, fraction :: IsWritten(s, negative, whole, fraction) && Denotes(d, negative, whole, fraction)
  {
    hide NatValue, Denotes, IsWritten, ParseNumber, MakeDecimal;
    if ParseNumber(s) == Some(d) {
      var negative, whole, fraction := ReadIsWritten(s);
      WrittenDigits(s, negative, whole, fraction);
      MadeDenotes(d, negative, whole, fraction);
    }
    if negative, whole, fraction :| IsWritten(s, negative, whole, fraction) && Denotes(d, negative, whole, fraction) {
      WrittenDigits(s, negative, whole, fraction);
      WrittenIsRead(s, negative, whole, fraction);
      MadeDenotes(d, negative, whole, fraction);
    }
  }

  lemma WrittenDigits(s: string, negative: bool, whole: string, fraction: string)
    requires IsWritten(s, negative, whole, fraction)
    ensures AllDigits(whole) && AllDigits(fraction)
  {}

  lemma MadeDenotes(d: Decimal, negative: bool, whole: string, fraction: string)
    requires AllDigits(whole) && AllDigits(fraction)
    ensures Denotes(d, negative, whole, fraction) <==> d == MakeDecimal(negative, whole, fraction)
  {
    hide NatValue;
    StrippedZeros(fraction);
    var f := StripZeros(fraction);
    if Denotes(d, negative, whole, fraction) {
      SameCut(fraction, d.fraction, f);
    }
  }

  /** Zeros can be cut off the end of a text in one way only. */
  lemma SameCut(s: string, a: string, b: string)
    requires a <= s && b <= s && (a != [] ==> a[|a| - 1] != '0') && (b != [] ==> b[|b| - 1] != '0')
    requires (forall i | |a| <= i < |s| :: s[i] == '0') && (forall i | |b| <= i < |s| :: s[i] == '0')
    ensures a == b
  {
    if a != [] { assert a[|a| - 1] == s[|a| - 1]; }
    if b != [] { assert b[|b| - 1] == s[|b| - 1]; }
  }

  lemma RunIsWhole(whole: string, fraction: string)
    requires whole != "" && AllDigits(whole)
    ensures var u := WithPoint(whole, fraction);
      && DigitRun(u) == |whole| && u[..|whole|] == whole
      && (fraction == "" ==> |u| == |whole|)
      && (fraction != "" ==> |whole| + 1 < |u| && u[|whole|] == '.' && u[|whole| + 1..] == fraction)
  {
    var u := WithPoint(whole, fraction);
    var n := DigitRun(u);
    assert forall i | 0 <= i < |whole| :: u[i] == whole[i];
    assert forall i | 0 <= i < n :: u[..n][i] == u[i];
    assert fraction != "" ==> u[|whole|] == '.';
  }

  /** What a value is read as, without the white space around it: in quotes a text, else the two words for
      flags, else a number if it is written as one, else the text itself. */
  lemma ScalarIs(raw: string)
    ensures var s, v := Trim(raw), ParseScalar(raw);
      if |s| >= 2 && s[0] == '\'' && s[|s| - 1] == '\'' then v == Text(Unescape(s[1..|s| - 1]))
      else if s == "true" || s == "false" then v == Bool(s == "true")
      else if exists negative, whole, fraction :: IsWritten(s, negative, whole, fraction) then v.Num? && ParseNumber(s) == Some(v.number)
      else v == Text(s)
  {
    hide Trim, Unescape, ParseNumber;
    var s := Trim(raw);
    if ParseNumber(s).Some? { var negative, whole, fraction := ReadIsWritten(s); }
    if negative, whole, fraction :| IsWritten(s, negative, whole, fraction) { WrittenIsRead(s, negative, whole, fraction); }
  }

  /** Undoing doubled quotes from the left: a pair becomes one quote, a single one stays. */
  lemma {:induction false} PairsBecomeOne(a: string, b: string)
    requires '\'' !in a
    ensures Unescape(a) == a && Unescape(a + "''" + b) == a + "'" + Unescape(b)
    ensures b == "" || b[0] != '\'' ==> Unescape(a + "'" + b) == a + "'" + Unescape(b)
  {
    hide IsSpace;
    var pair, one := a + "''" + b, a + "'" + b;
    if a == "" {
      assert pair[0] == '\'' && pair[1] == '\'' && pair[2..] == b && one[0] == '\'' && one[1..] == b;
    } else {
      assert a[0] in a;
      assert pair[0] == a[0] && pair[1..] == a[1..] + "''" + b && one[1..] == a[1..] + "'" + b;
      PairsBecomeOne(a[1..], b);
      assert a == [a[0]] + a[1..];
    }
  }
}
