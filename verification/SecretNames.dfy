/** The names under which sensitive environment variables are kept in the secret store
    (`apps/server/src/serverSettings.ts`), and why no two variables share one. */
module SecretNames {
  import opened Text

  /** An instance id: `/^[a-zA-Z][a-zA-Z0-9_-]*$/` */
  predicate IsSlug(s: string) {
    s != [] && IsLetter(s[0]) && PlainChars(s)
  }

  /** A variable name: `/^[a-zA-Z_][a-zA-Z0-9_]*$/` */
  predicate IsVariableName(s: string) {
    && s != [] && (IsLetter(s[0]) || s[0] == '_')
    && PlainChars(s) && '-' !in s
  }

  predicate IsPlain(c: char) {
    IsLetter(c) || IsDigit(c) || c == '_' || c == '-'
  }

  predicate PlainChars(s: string) {
    forall i | 0 <= i < |s| :: IsPlain(s[i])
  }

  // Unpadded base64url, section 5 of RFC 4648

  function Sextet(n: nat): char
    requires n < 64
  {
    if n < 26 then 'A' + (n as char)
    else if n < 52 then 'a' + ((n - 26) as char)
    else if n < 62 then '0' + ((n - 52) as char)
    else if n == 62 then '-' else '_'
  }

  lemma SextetInjective(m: nat, n: nat)
    requires m < 64 && n < 64 && Sextet(m) == Sextet(n)
    ensures m == n
  {
    assert Sextet(m) as int == Sextet(n) as int;
  }

  predicate IsByte(b: nat) {
    b < 256
  }

  /** UTF-8 gives every character below 128 the byte of its own code. */
  function Byte(c: char): (b: nat)
    requires IsPlain(c)
    ensures IsByte(b)
  {
    c as int
  }

  function First(a: nat): (n: nat)
    requires IsByte(a)
    ensures n < 64
  {
    a / 4
  }

  function Second(a: nat, b: nat): (n: nat)
    requires IsByte(a) && IsByte(b)
    ensures n < 64
  {
    a % 4 * 16 + b / 16
  }

  function Third(b: nat, c: nat): (n: nat)
    requires IsByte(b) && IsByte(c)
    ensures n < 64
  {
    b % 16 * 4 + c / 64
  }

  function Fourth(c: nat): (n: nat)
    requires IsByte(c)
    ensures n < 64
  {
    c % 64
  }

  /** `Buffer.from(s, "utf8").toString("base64url")` */
  function Encode(s: string): (r: string)
    requires PlainChars(s)
  {
    if s == [] then []
    else if |s| == 1 then
      [Sextet(First(Byte(s[0]))), Sextet(Second(Byte(s[0]), 0))]
    else if |s| == 2 then
      [Sextet(First(Byte(s[0]))), Sextet(Second(Byte(s[0]), Byte(s[1]))), Sextet(Third(Byte(s[1]), 0))]
    else
      Quad(s[0], s[1], s[2]) + Encode(s[3..])
  }

  function Quad(a: char, b: char, c: char): (r: string)
    requires IsPlain(a) && IsPlain(b) && IsPlain(c)
    ensures |r| == 4
  {
    [ Sextet(First(Byte(a))), Sextet(Second(Byte(a), Byte(b))),
      Sextet(Third(Byte(b), Byte(c))), Sextet(Fourth(Byte(c))) ]
  }

  function SecretName(instanceId: string, name: string): string
    requires PlainChars(instanceId) && PlainChars(name)
  {
    "provider-env-" + Encode(instanceId) + "-" + Encode(name)
  }

  lemma HeadsDiffer(a: nat, b: nat, a': nat, b': nat)
    requires IsByte(a) && IsByte(b) && IsByte(a') && IsByte(b')
    requires First(a) == First(a') && Second(a, b) == Second(a', b')
    ensures a == a' && b / 16 == b' / 16
  {}

  lemma TailsDiffer(b: nat, c: nat, b': nat, c': nat)
    requires IsByte(b) && IsByte(c) && IsByte(b') && IsByte(c')
    requires b / 16 == b' / 16 && Third(b, c) == Third(b', c')
    ensures b == b' && c / 64 == c' / 64
  {}

  lemma QuadInjective(a: char, b: char, c: char, a': char, b': char, c': char)
    requires IsPlain(a) && IsPlain(b) && IsPlain(c) && IsPlain(a') && IsPlain(b') && IsPlain(c')
    requires Quad(a, b, c) == Quad(a', b', c')
    ensures a == a' && b == b' && c == c'
  {
    var q, q' := Quad(a, b, c), Quad(a', b', c');
    assert q[0] == q'[0] && q[1] == q'[1] && q[2] == q'[2] && q[3] == q'[3];
    SextetInjective(First(Byte(a)), First(Byte(a')));
    SextetInjective(Second(Byte(a), Byte(b)), Second(Byte(a'), Byte(b')));
    SextetInjective(Third(Byte(b), Byte(c)), Third(Byte(b'), Byte(c')));
    SextetInjective(Fourth(Byte(c)), Fourth(Byte(c')));
    HeadsDiffer(Byte(a), Byte(b), Byte(a'), Byte(b'));
    TailsDiffer(Byte(b), Byte(c), Byte(b'), Byte(c'));
  }

  lemma EncodedLength(s: string)
    requires PlainChars(s)
    ensures |Encode(s)| >= 4 <==> |s| >= 3
    ensures |s| == 1 ==> |Encode(s)| == 2
    ensures |s| == 2 ==> |Encode(s)| == 3
    ensures s == [] ==> |Encode(s)| == 0
  {}

  lemma ShortInjective(s: string, t: string)
    requires PlainChars(s) && PlainChars(t) && |s| < 3 && |t| < 3 && Encode(s) == Encode(t)
    ensures s == t
  {
    hide Sextet, First, Second, Third;
    EncodedLength(s);
    EncodedLength(t);
    assert |s| == |t|;
    if |s| > 0 {
      var b, b' := if |s| == 2 then Byte(s[1]) else 0, if |s| == 2 then Byte(t[1]) else 0;
      assert Encode(s)[0] == Encode(t)[0] && Encode(s)[1] == Encode(t)[1];
      SextetInjective(First(Byte(s[0])), First(Byte(t[0])));
      SextetInjective(Second(Byte(s[0]), b), Second(Byte(t[0]), b'));
      HeadsDiffer(Byte(s[0]), b, Byte(t[0]), b');
      if |s| == 2 {
        assert Encode(s)[2] == Encode(t)[2];
        SextetInjective(Third(b, 0), Third(b', 0));
        TailsDiffer(b, 0, b', 0);
      }
    }
  }

  lemma {:induction false} EncodeInjective(s: string, t: string)
    requires PlainChars(s) && PlainChars(t) && Encode(s) == Encode(t)
    ensures s == t
  {
    hide Quad;
    EncodedLength(s);
    EncodedLength(t);
    if |s| < 3 {
      ShortInjective(s, t);
    } else {
      assert Encode(s)[..4] == Quad(s[0], s[1], s[2]) && Encode(t)[..4] == Quad(t[0], t[1], t[2]);
      assert Encode(s)[4..] == Encode(s[3..]) && Encode(t)[4..] == Encode(t[3..]);
      QuadInjective(s[0], s[1], s[2], t[0], t[1], t[2]);
      EncodeInjective(s[3..], t[3..]);
      assert s == [s[0], s[1], s[2]] + s[3..] && t == [t[0], t[1], t[2]] + t[3..];
    }
  }

  lemma NoDash(n: nat)
    requires n < 64 && n != 62
    ensures Sextet(n) != '-'
  {}

  lemma QuadHasNoDash(a: char, b: char, c: char)
    requires IsPlain(a) && IsPlain(b) && IsPlain(c)
    ensures '-' !in Quad(a, b, c)
    ensures Sextet(Second(Byte(a), 0)) != '-' && Sextet(Third(Byte(b), 0)) != '-'
  {
    hide Sextet;
    NoDash(First(Byte(a)));
    NoDash(Second(Byte(a), Byte(b)));
    NoDash(Second(Byte(a), 0));
    NoDash(Third(Byte(b), Byte(c)));
    NoDash(Third(Byte(b), 0));
    NoDash(Fourth(Byte(c)));
  }

  /** The separator never occurs in what it separates. */
  lemma {:induction false} EncodeHasNoDash(s: string)
    requires PlainChars(s)
    ensures '-' !in Encode(s)
  {
    hide Sextet, First, Second, Third, Fourth;
    if |s| >= 3 {
      QuadHasNoDash(s[0], s[1], s[2]);
      EncodeHasNoDash(s[3..]);
    } else if s != [] {
      QuadHasNoDash(s[0], s[|s| - 1], s[0]);
    }
  }

  /** No two variables share a secret: the name determines the instance and the variable. */
  lemma SecretNameInjective(i: string, x: string, j: string, y: string)
    requires PlainChars(i) && PlainChars(x) && PlainChars(j) && PlainChars(y)
    requires SecretName(i, x) == SecretName(j, y)
    ensures i == j && x == y
  {
    hide Encode;
    var prefix := "provider-env-";
    var s, t := Encode(i) + "-" + Encode(x), Encode(j) + "-" + Encode(y);
    assert SecretName(i, x) == prefix + s && SecretName(j, y) == prefix + t;
    assert s == (prefix + s)[|prefix|..] && t == (prefix + t)[|prefix|..];
    EncodeHasNoDash(i);
    EncodeHasNoDash(j);
    SplitsFirst('-', Encode(i), Encode(x), Encode(j), Encode(y));
    EncodeInjective(i, j);
    EncodeInjective(x, y);
  }

  /** The characters of base64url in the order of table 2 of RFC 4648. */
  const ALPHABET: string := Upwards('A', 26) + Upwards('a', 26) + Upwards('0', 10) + "-_"

  /** `count` characters from `c` on. */
  function Upwards(c: char, count: nat): string
    requires c as int + count <= 128
  {
    seq(count, i requires 0 <= i < count => c + (i as char))
  }

  lemma SextetIs(n: nat)
    requires n < 64
    ensures |ALPHABET| == 64 && Sextet(n) == ALPHABET[n]
  {}

  /** Four sextets are the three bytes they encode, read as one number of 24 bits; bytes that are missing
      count as zero. */
  lemma SameBits(a: nat, b: nat, c: nat)
    requires IsByte(a) && IsByte(b) && IsByte(c)
    ensures 262144 * First(a) + 4096 * Second(a, b) + 64 * Third(b, c) + Fourth(c) == 65536 * a + 256 * b + c
  {}

  /** The text is encoded three characters at a time, and one or two left over take two or three. */
  lemma EncodedInGroups(s: string)
    requires PlainChars(s)
    ensures |s| >= 3 ==> Encode(s) == Encode(s[..3]) + Encode(s[3..]) && |Encode(s[..3])| == 4
    ensures |s| == 1 ==> |Encode(s)| == 2
    ensures |s| == 2 ==> |Encode(s)| == 3
    ensures 0 < |s| <= 3 ==>
      var a, b, c := s[0] as int, if |s| > 1 then s[1] as int else 0, if |s| > 2 then s[2] as int else 0;
      Encode(s) == [ALPHABET[First(a)], ALPHABET[Second(a, b)]] + (if |s| > 1 then [ALPHABET[Third(b, c)]] else [])
                   + (if |s| > 2 then [ALPHABET[Fourth(c)]] else [])
  {
    hide Sextet, First, Second, Third, Fourth;
    forall n: nat | n < 64 ensures |ALPHABET| == 64 && Sextet(n) == ALPHABET[n] { SextetIs(n); }
    if |s| >= 3 {
      var t := s[..3];
      assert t[3..] == [] && Encode(t) == Quad(t[0], t[1], t[2]) + [];
    }
  }

  /** For instance: variable `X` of instance `a`. */
  lemma SecretNameOfX()
    ensures PlainChars("a") && PlainChars("X") && SecretName("a", "X") == "provider-env-YQ-WA"
  {
    assert Encode("a") == "YQ" && Encode("X") == "WA";
  }
}
