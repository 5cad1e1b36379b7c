/** Strings as the program sees them: the white space that `\s` and `trim` share,
    trimming, and decimal numerals. */
module Text {

  datatype Option<+T> = None | Some(value: T)

  /** `a ?? b` where `b` is there. */
  function Or<T>(a: Option<T>, b: T): T {
    if a.Some? then a.value else b
  }

  /** `a ?? b` */
  function OrElse<T>(a: Option<T>, b: Option<T>): Option<T> {
    if a.Some? then a else b
  }

  /** A JavaScript number as far as the program distinguishes them. */
  datatype Number = Finite(value: real) | NotFinite

  /** The characters matched by `\s` and removed by `trim`. */
  predicate IsSpace(c: char) {
    || c == ' ' || '\t' <= c <= '\r' || c == '\U{00A0}' || c == '\U{1680}'
    || '\U{2000}' <= c <= '\U{200A}' || c == '\U{2028}' || c == '\U{2029}'
    || c == '\U{202F}' || c == '\U{205F}' || c == '\U{3000}' || c == '\U{FEFF}'
  }

  /** The characters that `.` does not match. */
  predicate IsLineTerminator(c: char) {
    c == '\n' || c == '\r' || c == '\U{2028}' || c == '\U{2029}'
  }

  predicate IsDigit(c: char) {
    '0' <= c <= '9'
  }

  predicate IsLetter(c: char) {
    'a' <= c <= 'z' || 'A' <= c <= 'Z'
  }

  predicate OneLine(s: string) {
    forall i | 0 <= i < |s| :: !IsLineTerminator(s[i])
  }

  function TrimStart(s: string): string {
    if s != [] && IsSpace(s[0]) then TrimStart(s[1..]) else s
  }

  function TrimEnd(s: string): string {
    if s != [] && IsSpace(s[|s| - 1]) then TrimEnd(s[..|s| - 1]) else s
  }

  function Trim(s: string): string {
    TrimEnd(TrimStart(s))
  }

  /** No white space at either end: what `trim` leaves alone. */
  predicate Trimmed(s: string) {
    s == [] || (!IsSpace(s[0]) && !IsSpace(s[|s| - 1]))
  }

  lemma {:induction false} TrimStartSuffix(s: string)
    ensures |TrimStart(s)| <= |s| && TrimStart(s) == s[|s| - |TrimStart(s)|..]
    ensures TrimStart(s) == [] || !IsSpace(TrimStart(s)[0])
    ensures forall i | 0 <= i < |s| - |TrimStart(s)| :: IsSpace(s[i])
  {
    if s != [] && IsSpace(s[0]) {
      TrimStartSuffix(s[1..]);
      forall i | 0 <= i < |s| - |TrimStart(s)| ensures IsSpace(s[i]) {
        if i > 0 { assert s[i] == s[1..][i - 1]; }
      }
    }
  }

  lemma {:induction false} TrimEndPrefix(s: string)
    ensures |TrimEnd(s)| <= |s| && TrimEnd(s) == s[..|TrimEnd(s)|]
    ensures TrimEnd(s) == [] || !IsSpace(TrimEnd(s)[|TrimEnd(s)| - 1])
    ensures forall i | |TrimEnd(s)| <= i < |s| :: IsSpace(s[i])
  {
    if s != [] && IsSpace(s[|s| - 1]) {
      TrimEndPrefix(s[..|s| - 1]);
    }
  }

  lemma TrimIsTrimmed(s: string)
    ensures Trimmed(Trim(s)) && |Trim(s)| <= |s|
  {
    var t := TrimStart(s);
    TrimStartSuffix(s);
    TrimEndPrefix(t);
    var u := TrimEnd(t);
    if u != [] { assert u[0] == t[0]; }
  }

  lemma TrimFixes(s: string)
    ensures Trim(s) == s <==> Trimmed(s)
  {
    TrimIsTrimmed(s);
  }

  // Decimal numerals

  function DigitChar(d: nat): (c: char)
    requires d < 10
    ensures IsDigit(c)
  {
    '0' + (d as char)
  }

  function DigitValue(c: char): (d: nat)
    requires IsDigit(c)
    ensures d < 10 && DigitChar(d) == c
  {
    (c - '0') as nat
  }

  /** `String(n)` for a natural number. */
  function NatText(n: nat): (s: string)
    ensures |s| > 0 && forall i | 0 <= i < |s| :: IsDigit(s[i])
  {
    if n < 10 then [DigitChar(n)] else NatText(n / 10) + [DigitChar(n % 10)]
  }

  predicate AllDigits(s: string) {
    forall i | 0 <= i < |s| :: IsDigit(s[i])
  }

  /** `Number(s)` for a run of digits. */
  function NatValue(s: string): nat
    requires AllDigits(s)
  {
    if s == [] then 0 else 10 * NatValue(s[..|s| - 1]) + DigitValue(s[|s| - 1])
  }

  lemma {:induction false} NatRoundTrip(n: nat)
    ensures NatValue(NatText(n)) == n
  {
    if n < 10 {
      assert NatText(n)[..0] == [];
      assert NatValue(NatText(n)) == 10 * NatValue([]) + n;
    } else {
      NatRoundTrip(n / 10);
      assert NatText(n)[..|NatText(n)| - 1] == NatText(n / 10);
    }
  }

  lemma NatTextInjective(m: nat, n: nat)
    requires NatText(m) == NatText(n)
    ensures m == n
  {
    NatRoundTrip(m);
    NatRoundTrip(n);
  }

  // Texts joined by a separator

  /** When the left parts hold no separator, a joined text splits in one way. */
  lemma SplitsFirst(separator: char, a: string, b: string, c: string, d: string)
    requires separator !in a && separator !in c && a + [separator] + b == c + [separator] + d
    ensures a == c && b == d
  {
    var s, t := a + [separator] + b, c + [separator] + d;
    assert s[|a|] == separator && t[|c|] == separator;
    assert forall k | 0 <= k < |a| :: s[k] == a[k] && a[k] in a;
    assert forall k | 0 <= k < |c| :: t[k] == c[k] && c[k] in c;
    assert |a| == |c|;
    assert s[..|a|] == a && t[..|c|] == c;
    assert s[|a| + 1..] == b && t[|c| + 1..] == d;
  }

  /** When the right parts hold no separator, a joined text splits in one way. */
  lemma SplitsLast(separator: char, a: string, b: string, c: string, d: string)
    requires separator !in b && separator !in d && a + [separator] + b == c + [separator] + d
    ensures a == c && b == d
  {
    var s, t := a + [separator] + b, c + [separator] + d;
    assert s[|a|] == separator && t[|c|] == separator;
    assert forall k | |a| < k < |s| :: s[k] == b[k - |a| - 1] && b[k - |a| - 1] in b;
    assert forall k | |c| < k < |t| :: t[k] == d[k - |c| - 1] && d[k - |c| - 1] in d;
    assert |a| == |c|;
    assert s[..|a|] == a && t[..|c|] == c;
    assert s[|a| + 1..] == b && t[|c| + 1..] == d;
  }

  // Code unit order, as `<` and the default sort compare strings

  predicate LexLe(a: string, b: string) {
    a == [] || (b != [] && (a[0] < b[0] || (a[0] == b[0] && LexLe(a[1..], b[1..]))))
  }

  lemma {:induction false} LexTotal(a: string, b: string)
    ensures LexLe(a, b) || LexLe(b, a)
    ensures LexLe(a, b) && LexLe(b, a) ==> a == b
  {
    if a != [] && b != [] && a[0] == b[0] {
      LexTotal(a[1..], b[1..]);
      if a[1..] == b[1..] {
        assert a == [a[0]] + a[1..] && b == [b[0]] + b[1..];
      }
    }
  }

  lemma {:induction false} LexTransitive(a: string, b: string, c: string)
    requires LexLe(a, b) && LexLe(b, c)
    ensures LexLe(a, c)
  {
    if a != [] && a[0] == b[0] && b[0] == c[0] {
      LexTransitive(a[1..], b[1..], c[1..]);
    }
  }

  predicate SmallerAt(a: string, b: string, k: int) {
    0 <= k < |a| && k < |b| && a[k] < b[k] && forall i | 0 <= i < k :: a[i] == b[i]
  }

  /** A text that is not above another is its prefix, or has the smaller character where they first differ. */
  lemma {:induction false} LexLeIs(a: string, b: string)
    ensures LexLe(a, b) <==> a <= b || exists k :: SmallerAt(a, b, k)
  {
    if a != [] && b != [] {
      var s, t := a[1..], b[1..];
      LexLeIs(s, t);
      assert a == [a[0]] + s && b == [b[0]] + t;
      assert a <= b <==> a[0] == b[0] && s <= t;
      if a[0] < b[0] { assert SmallerAt(a, b, 0); }
      if k :| a[0] == b[0] && SmallerAt(s, t, k) { assert SmallerAt(a, b, k + 1); }
      if k :| 0 < k && SmallerAt(a, b, k) {
        assert forall i | 0 <= i < k - 1 :: s[i] == a[i + 1] && t[i] == b[i + 1];
        assert a[0] == b[0] && SmallerAt(s, t, k - 1);
      }
    }
  }
}
