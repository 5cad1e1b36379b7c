/** Exactly which manifests survive being printed and parsed again. */
module UpdateManifestRoundTrip {
  import opened Text
  import opened UpdateManifest

  // The condition, in terms of the manifest alone

  /** A url or hash that is printed bare and read back unchanged. */
  predicate Clean(s: string) {
    s != [] && OneLine(s) && Trimmed(s) && !QuoteWrapped(s)
  }

  predicate IsReserved(key: string) {
    key == "version" || key == "releaseDate" || key == "path" || key == "sha512"
  }

  predicate PrintableFile(f: File) {
    Clean(f.url) && Clean(f.sha512) && 0 <= f.size < EXPONENT_FROM
  }

  /** An extra whose line is read as one: numbers need not come back as numbers. */
  predicate ReadableExtra(key: string, value: Scalar) {
    IsIdentifier(key) && !IsReserved(key) && (value.Text? ==> OneLine(value.text))
  }

  predicate PrintableExtra(key: string, value: Scalar) {
    ReadableExtra(key, value) && (value.Num? ==> IsPlain(value.number))
  }

  predicate Printable(m: Manifest) {
    && m.version != [] && OneLine(m.version)
    && m.releaseDate != [] && OneLine(m.releaseDate)
    && m.files != [] && (forall f | f in m.files :: PrintableFile(f))
    && (forall k | k in m.extras :: PrintableExtra(k, m.extras[k]))
  }

  // Quoting

  lemma {:induction false} UnescapeEscape(s: string)
    ensures Unescape(Escape(s)) == s
  {
    if s != [] {
      UnescapeEscape(s[1..]);
      var e := Escape(s[1..]);
      if s[0] == '\'' {
        assert (['\'', '\''] + e)[2..] == e;
      } else {
        assert ([s[0]] + e)[1..] == e;
      }
    }
  }

  lemma {:induction false} EscapeOneLine(s: string)
    ensures OneLine(Escape(s)) <==> OneLine(s)
  {
    if s != [] {
      EscapeOneLine(s[1..]);
      assert OneLine(s) <==> !IsLineTerminator(s[0]) && OneLine(s[1..]) by { OneLineSplit([s[0]], s[1..]); }
      OneLineSplit(if s[0] == '\'' then ['\'', '\''] else [s[0]], Escape(s[1..]));
    }
  }

  lemma OneLineSplit(a: string, b: string)
    ensures OneLine(a + b) <==> OneLine(a) && OneLine(b)
  {
    hide IsLineTerminator;
    if OneLine(a + b) {
      forall i | 0 <= i < |a| ensures !IsLineTerminator(a[i]) { assert a[i] == (a + b)[i]; }
      forall i | 0 <= i < |b| ensures !IsLineTerminator(b[i]) { assert b[i] == (a + b)[|a| + i]; }
    }
  }

  lemma QuoteShape(s: string)
    ensures QuoteWrapped(Quote(s)) && |Quote(s)| >= 2 && Inner(Quote(s)) == Escape(s)
    ensures Trimmed(Quote(s)) && (OneLine(Quote(s)) <==> OneLine(s))
  {
    EscapeOneLine(s);
    OneLineSplit(['\''], Escape(s));
    OneLineSplit(['\''] + Escape(s), ['\'']);
  }

  // Numbers

  lemma {:induction false} StripZerosFixes(s: string)
    requires s != [] ==> s[|s| - 1] != '0'
    ensures StripZeros(s) == s
  {}

  lemma {:induction false} DigitRunStops(digits: string, rest: string)
    requires AllDigits(digits) && (rest == [] || !IsDigit(rest[0]))
    ensures DigitRun(digits + rest) == |digits|
  {
    if digits == [] {
      assert digits + rest == rest;
    } else {
      assert forall i | 0 <= i < |digits[1..]| :: digits[1..][i] == digits[i + 1];
      assert (digits + rest)[0] == digits[0];
      assert (digits + rest)[1..] == digits[1..] + rest;
      DigitRunStops(digits[1..], rest);
    }
  }

  lemma ParsePlainText(d: Decimal)
    ensures ParseUnsigned(d.negative, PlainText(d)) == Some(d)
  {
    hide NatText, NatValue, StripZeros, DigitRun;
    var w := NatText(d.whole);
    var tail := if d.fraction == [] then [] else ['.'] + d.fraction;
    DigitRunStops(w, tail);
    NatRoundTrip(d.whole);
    StripZerosFixes(d.fraction);
    StripZerosFixes([]);
    assert (w + tail)[..|w|] == w;
    if d.fraction != [] {
      assert (w + tail)[|w| + 1..] == d.fraction;
    } else {
      assert w + tail == w;
    }
  }

  predicate IsNumberChar(c: char) {
    IsDigit(c) || c == '.' || c == 'e' || c == '+' || c == '-'
  }

  /** No number with an exponent matches the pattern for numbers. */
  lemma ScientificIsNoNumber(negative: bool, first: char, others: string, power: string)
    requires IsDigit(first) && AllDigits(others)
    ensures ParseUnsigned(negative, Scientific(first, others, power)) == None
  {
    hide DigitRun, NatValue, MakeDecimal;
    var t := Scientific(first, others, power);
    var tail := t[1..];
    assert t == [first] + tail;
    DigitRunStops([first], tail);
    if others != [] {
      assert t[2 + |others|] == 'e' && t[2..][|others|] == 'e';
    }
  }

  lemma ScientificChars(first: char, others: string, power: string)
    requires IsDigit(first) && AllDigits(others) && forall i | 0 <= i < |power| :: IsNumberChar(power[i])
    ensures var t := Scientific(first, others, power); t != [] && IsDigit(t[0]) && 'e' in t
    ensures forall i | 0 <= i < |Scientific(first, others, power)| :: IsNumberChar(Scientific(first, others, power)[i])
    ensures power != [] && IsDigit(power[|power| - 1]) ==> IsDigit(Scientific(first, others, power)[|Scientific(first, others, power)| - 1])
  {
    var t := Scientific(first, others, power);
    assert t[|t| - |power| - 1] == 'e';
  }

  lemma PowerChars(sign: char, n: nat)
    requires sign == '+' || sign == '-'
    ensures var power := [sign] + NatText(n);
            power != [] && IsDigit(power[|power| - 1]) && forall i | 0 <= i < |power| :: IsNumberChar(power[i])
  {
    hide NatText;
  }

  lemma NonZeroFraction(d: Decimal)
    requires d.fraction != []
    ensures LeadingZeros(d.fraction) < |d.fraction|
  {
    hide LeadingZeros;
    var n := |d.fraction| - 1;
    assert d.fraction[n] != '0';
  }

  lemma ExponentShape(d: Decimal)
    requires !IsPlain(d)
    ensures ParseUnsigned(d.negative, ExponentText(d)) == None
    ensures var t := ExponentText(d); t != [] && IsDigit(t[0]) && IsDigit(t[|t| - 1]) && 'e' in t
    ensures forall i | 0 <= i < |ExponentText(d)| :: IsNumberChar(ExponentText(d)[i])
  {
    hide NatText, LeadingZeros, Scientific, StripZeros, ParseUnsigned;
    if d.whole > 0 {
      var digits := NatText(d.whole);
      var power := "+" + NatText(|digits| - 1);
      assert AllDigits(digits[1..] + d.fraction);
      var others := StripZeros(digits[1..] + d.fraction);
      ScientificIsNoNumber(d.negative, digits[0], others, power);
      PowerChars('+', |digits| - 1);
      ScientificChars(digits[0], others, power);
    } else {
      NonZeroFraction(d);
      var zeros := LeadingZeros(d.fraction);
      var power := "-" + NatText(zeros + 1);
      var others := d.fraction[zeros + 1..];
      ScientificIsNoNumber(d.negative, d.fraction[zeros], others, power);
      PowerChars('-', zeros + 1);
      ScientificChars(d.fraction[zeros], others, power);
    }
  }

  lemma PlainShape(d: Decimal)
    ensures var t := PlainText(d); t != [] && IsDigit(t[0]) && IsDigit(t[|t| - 1]) && 'e' !in t
    ensures forall i | 0 <= i < |PlainText(d)| :: IsNumberChar(PlainText(d)[i])
  {
    hide NatText;
  }

  /** The digits of a printed number, after its sign. */
  function Unsigned(d: Decimal): string {
    if IsPlain(d) then PlainText(d) else ExponentText(d)
  }

  lemma UnsignedShape(d: Decimal)
    ensures var u := Unsigned(d); u != [] && IsDigit(u[0]) && IsDigit(u[|u| - 1]) && ('e' in u <==> !IsPlain(d))
    ensures forall i | 0 <= i < |Unsigned(d)| :: IsNumberChar(Unsigned(d)[i])
  {
    hide PlainText, ExponentText, IsPlain;
    PlainShape(d);
    if !IsPlain(d) { ExponentShape(d); }
  }

  lemma SignedShape(u: string, negative: bool)
    requires u != [] && IsDigit(u[0]) && IsDigit(u[|u| - 1]) && forall i | 0 <= i < |u| :: IsNumberChar(u[i])
    ensures var t := (if negative then "-" else "") + u;
            t != [] && Trimmed(t) && OneLine(t) && (t[0] == '-' || IsDigit(t[0])) && ('e' in t <==> 'e' in u)
  {}

  /** A printed number is read back exactly when it was printed without an exponent. */
  lemma NumberShape(d: Decimal)
    ensures ParseNumber(DecimalText(d)) == if IsPlain(d) then Some(d) else None
    ensures var t := DecimalText(d); t != [] && Trimmed(t) && OneLine(t) && (t[0] == '-' || IsDigit(t[0]))
    ensures 'e' in DecimalText(d) <==> !IsPlain(d)
  {
    hide PlainText, ExponentText, ParseUnsigned, IsPlain, OneLine, Trimmed, IsNumberChar;
    ParsePlainText(d);
    UnsignedShape(d);
    if !IsPlain(d) { ExponentShape(d); }
    var u, t := Unsigned(d), DecimalText(d);
    SignedShape(u, d.negative);
    assert t == (if d.negative then "-" else "") + u;
    assert if d.negative then t[1..] == u else t == u;
  }

  // Scalars

  /** How a printed scalar comes back: a number with an exponent as a text. */
  function RereadScalar(v: Scalar): Scalar {
    if v.Num? && !IsPlain(v.number) then Text(DecimalText(v.number)) else v
  }

  lemma ScalarShape(v: Scalar)
    ensures ParseScalar(ScalarText(v)) == RereadScalar(v)
    ensures ScalarText(v) != [] && Trimmed(ScalarText(v))
    ensures OneLine(ScalarText(v)) <==> (v.Text? ==> OneLine(v.text))
  {
    hide ParseNumber, DecimalText, Quote, Inner, Trim, OneLine, IsPlain;
    match v {
      case Text(text) =>
        QuoteShape(text);
        UnescapeEscape(text);
        TrimFixes(Quote(text));
      case Num(number) =>
        NumberShape(number);
        TrimFixes(DecimalText(number));
      case Bool(flag) => BoolShape(flag);
    }
  }

  lemma BoolShape(flag: bool)
    ensures var t := if flag then "true" else "false"; Trimmed(t) && OneLine(t) && Trim(t) == t && !QuoteWrapped(t)
  {
    TrimFixes(if flag then "true" else "false");
  }

  // Lines

  lemma {:induction false} TrimEndAppend(p: string, u: string)
    ensures TrimEnd(u) != [] ==> TrimEnd(p + u) == p + TrimEnd(u)
    ensures TrimEnd(u) == [] ==> TrimEnd(p + u) == TrimEnd(p)
  {
    hide IsSpace;
    if u == [] {
      assert p + u == p;
    } else if IsSpace(u[|u| - 1]) {
      TrimEndAppend(p, u[..|u| - 1]);
      assert (p + u)[..|p + u| - 1] == p + u[..|u| - 1];
    }
  }

  /** How a bare field comes back. */
  function Reread(u: string): string {
    StripSingleQuotes(Trim(TrimStart(TrimEnd(u))))
  }

  lemma {:induction false} UnescapeShorter(s: string)
    ensures |Unescape(s)| <= |s|
    decreases |s|
  {
    if |s| >= 2 && s[0] == '\'' && s[1] == '\'' {
      UnescapeShorter(s[2..]);
    } else if s != [] {
      UnescapeShorter(s[1..]);
    }
  }

  lemma RereadClean(u: string)
    requires OneLine(u)
    ensures (TrimEnd(u) != [] && Reread(u) == u) <==> Clean(u)
  {
    hide TrimStart, TrimEnd, Trim, Unescape, OneLine, IsSpace;
    var a := TrimEnd(u);
    var b := TrimStart(a);
    var c := Trim(b);
    TrimEndPrefix(u);
    TrimStartSuffix(a);
    TrimIsTrimmed(b);
    UnescapeShorter(Inner(c));
    if Reread(u) == u {
      assert |a| == |u| && |b| == |u| && |c| == |u|;
      assert a == u && b == u;
      TrimFixes(u);
      BoundedTrim(u);
    }
    if Clean(u) {
      TrimmedIsFixed(u);
      TrimFixes(u);
    }
  }

  lemma BoundedTrim(u: string)
    requires TrimEnd(u) == u && TrimStart(u) == u
    ensures Trim(u) == u
  {}

  lemma TrimmedIsFixed(u: string)
    requires Trimmed(u)
    ensures TrimEnd(u) == u && TrimStart(u) == u
  {}

  lemma OneLineParts(s: string)
    requires OneLine(s)
    ensures OneLine(TrimStart(s)) && OneLine(TrimEnd(s))
  {
    hide IsLineTerminator;
    TrimStartSuffix(s);
    TrimEndPrefix(s);
    assert s == s[..|s| - |TrimStart(s)|] + TrimStart(s);
    assert s == TrimEnd(s) + s[|TrimEnd(s)|..];
    OneLineSplit(s[..|s| - |TrimStart(s)|], TrimStart(s));
    OneLineSplit(TrimEnd(s), s[|TrimEnd(s)|..]);
  }

  /** The value of a field printed after its field and one space. */
  lemma FieldOfText(u: string)
    requires OneLine(u) && TrimEnd(u) != []
    ensures FieldValue([' '] + TrimEnd(u)) == Some(TrimStart(TrimEnd(u)))
  {
    hide OneLine;
    var a := TrimEnd(u);
    assert ([' '] + a)[1..] == a;
    OneLineParts(u);
    OneLineParts(a);
    TrimStartSuffix(a);
    TrimEndPrefix(u);
  }

  lemma FieldLine(field: string, u: string)
    requires field != [] && !IsSpace(field[|field| - 1])
    ensures TrimEnd(field + " " + u) == if TrimEnd(u) == [] then field else field + ([' '] + TrimEnd(u))
  {
    hide IsSpace;
    TrimEndAppend(field + " ", u);
    assert field + " " + TrimEnd(u) == field + ([' '] + TrimEnd(u));
    TrimEndLabel(field);
  }

  lemma TrimEndLabel(field: string)
    requires field != [] && !IsSpace(field[|field| - 1])
    ensures TrimEnd(field + " ") == field
  {
    assert (field + " ")[..|field|] == field;
  }

  lemma NotTopLevel(line: string)
    requires line != [] && line[0] == ' '
    ensures TopLevelLine(line) == None && line != FILES_HEADER
  {}

  lemma UrlLine(u: string)
    requires OneLine(u)
    ensures ClassifyLine(UrlText(u)) == if TrimEnd(u) == [] then Unsupported else FileUrl(Reread(u))
  {
    hide TrimEnd, TrimStart, Trim, StripSingleQuotes, FieldValue, TopLevelLine;
    FieldLine(URL_FIELD, u);
    if TrimEnd(u) == [] {
      NotTopLevel(URL_FIELD);
      FieldEmpty(URL_FIELD);
    } else {
      var line := URL_FIELD + ([' '] + TrimEnd(u));
      assert URL_FIELD <= line && line[|URL_FIELD|..] == [' '] + TrimEnd(u);
      FieldOfText(u);
    }
  }

  lemma FieldEmpty(field: string)
    ensures FieldValue(field[|field|..]) == None
  {}

  lemma Sha512Line(u: string)
    requires OneLine(u)
    ensures ClassifyLine(Sha512Text(u)) == if TrimEnd(u) == [] then Unsupported else FileSha512(Reread(u))
  {
    hide TrimEnd, TrimStart, Trim, StripSingleQuotes, FieldValue, TopLevelLine;
    FieldLine(SHA512_FIELD, u);
    if TrimEnd(u) == [] {
      NotTopLevel(SHA512_FIELD);
      FieldEmpty(SHA512_FIELD);
      assert SHA512_FIELD[2] == ' ' && SHA512_FIELD[5] == 'h';
    } else {
      var line := SHA512_FIELD + ([' '] + TrimEnd(u));
      assert SHA512_FIELD <= line && line[|SHA512_FIELD|..] == [' '] + TrimEnd(u);
      assert line[2] == ' ';
      FieldOfText(u);
    }
  }

  lemma IntShape(n: int)
    ensures var t := IntText(n); t != [] && Trimmed(t) && OneLine(t) && (AllDigits(t) <==> 0 <= n < EXPONENT_FROM)
  {
    hide NatText, PlainText, DecimalText, OneLine;
    var d: Decimal := Decimal(n < 0, if n < 0 then -n else n, []);
    NumberShape(d);
    if n < 0 {
      NegativeStart(d);
    } else if n < EXPONENT_FROM {
      WholeText(d);
    }
  }

  lemma NegativeStart(d: Decimal)
    requires d.negative
    ensures DecimalText(d) != [] && DecimalText(d)[0] == '-'
  {
    hide PlainText, ExponentText;
  }

  lemma WholeText(d: Decimal)
    requires !d.negative && d.fraction == [] && IsPlain(d)
    ensures DecimalText(d) == NatText(d.whole)
  {
    hide NatText;
  }

  lemma SizeLine(n: int)
    ensures ClassifyLine(SizeText(n)) == if 0 <= n < EXPONENT_FROM then FileSize(n) else Unsupported
  {
    hide TrimEnd, TrimStart, Trim, FieldValue, IntText, TopLevelLine, NatValue, AllDigits;
    var t := IntText(n);
    IntShape(n);
    TrimmedIsFixed(t);
    FieldLine(SIZE_FIELD, t);
    FieldOfText(t);
    var line := SIZE_FIELD + ([' '] + t);
    assert SIZE_FIELD <= line && line[|SIZE_FIELD|..] == [' '] + t;
    assert line[2] == ' ' && line[5] == 'i';
    NotTopLevel(line);
    if 0 <= n < EXPONENT_FROM {
      IntValue(n);
    }
  }

  lemma IntValue(n: nat)
    requires n < EXPONENT_FROM
    ensures AllDigits(IntText(n)) && NatValue(IntText(n)) == n
  {
    hide NatText, DecimalText;
    WholeText(Decimal(false, n, []));
    NatRoundTrip(n);
  }

  lemma {:induction false} KeyRunStops(key: string, rest: string)
    requires (forall i | 0 <= i < |key| :: IsKeyChar(key[i])) && rest != [] && !IsKeyChar(rest[0])
    ensures KeyRun(key + rest) == |key|
  {
    if key == [] {
      assert key + rest == rest;
    } else {
      assert (key + rest)[0] == key[0];
      assert (key + rest)[1..] == key[1..] + rest;
      KeyRunStops(key[1..], rest);
    }
  }

  lemma TopLevelOf(key: string, value: string)
    requires IsIdentifier(key) && value != [] && Trimmed(value) && OneLine(value)
    ensures TopLevelLine(EntryText(key, value)) == Some(TopLevel(key, value))
  {
    hide TrimEnd, TrimStart, FieldValue, OneLine, Trimmed;
    var line := EntryText(key, value);
    var tail := ": " + value;
    assert line == key + tail;
    TrimmedIsFixed(value);
    KeyRunStops(key, tail);
    FieldOfText(value);
    assert line[|key| + 1..] == [' '] + value;
    assert line[..|key|] == key;
  }

  lemma NotAnotherLine(key: string, value: string)
    requires IsIdentifier(key)
    ensures var line := EntryText(key, value);
      line != [] && FileUrlLine(line).None? && FileSha512Line(line).None? && FileSizeLine(line).None? && line != FILES_HEADER
  {
    hide FieldValue;
    var line := EntryText(key, value);
    assert line[0] == key[0] && line[|key| + 1] == ' ';
  }

  lemma EntryLine(key: string, value: string)
    requires IsIdentifier(key) && value != [] && Trimmed(value) && OneLine(value)
    ensures ClassifyLine(EntryText(key, value)) == TopLevel(key, value)
  {
    hide FileUrlLine, FileSha512Line, FileSizeLine, TopLevelLine, OneLine, IsIdentifier;
    var line := EntryText(key, value);
    assert line[|line| - 1] == value[|value| - 1];
    TrimmedLine(line);
    TopLevelOf(key, value);
    NotAnotherLine(key, value);
  }

  lemma TrimmedLine(line: string)
    requires line != [] && !IsSpace(line[|line| - 1])
    ensures TrimEnd(line) == line
  {}

  // Splitting the printed text

  lemma FirstBreakIs(raw: string, j: nat)
    requires j <= |raw| && (j < |raw| ==> raw[j] == '\n')
    requires forall k | 0 <= k < j :: raw[k] != '\n' && raw[k] != '\r'
    ensures FirstBreak(raw, 0) == j
  {
    var r := FirstBreak(raw, 0);
    if j < |raw| { assert BreakAt(raw, j) == 1; }
    assert forall k | 0 <= k < j :: BreakAt(raw, k) == 0;
  }

  lemma NoBreakChars(l: string)
    requires OneLine(l)
    ensures forall k | 0 <= k < |l| :: l[k] != '\n' && l[k] != '\r'
  {
    assert forall k | 0 <= k < |l| :: !IsLineTerminator(l[k]);
  }

  lemma {:induction false} SplitJoin(lines: seq<string>)
    requires lines != [] && forall l | l in lines :: OneLine(l)
    ensures SplitLines(JoinLines(lines)) == lines
  {
    hide FirstBreak, OneLine;
    var l := lines[0];
    NoBreakChars(l);
    if |lines| == 1 {
      FirstBreakIs(l, |l|);
      assert lines == [l];
    } else {
      var rest := JoinLines(lines[1..]);
      SplitJoin(lines[1..]);
      SplitAtBreak(l, rest);
      assert lines == [l] + lines[1..];
    }
  }

  lemma SplitAtBreak(l: string, rest: string)
    requires forall k | 0 <= k < |l| :: l[k] != '\n' && l[k] != '\r'
    ensures SplitLines(l + ['\n'] + rest) == [l] + SplitLines(rest)
  {
    hide FirstBreak;
    var raw := l + ['\n'] + rest;
    FirstBreakIs(raw, |l|);
    assert raw[..|l|] == l && raw[|l| + 1..] == rest;
  }

  // Folding over the printed lines

  /** No file entry is half read, and an open one belongs to the file list. */
  predicate Complete(st: State) {
    st.currentFile.Some? ==> st.inFiles && st.currentFile.value.sha512.Some? && st.currentFile.value.size.Some?
  }

  /** The files read so far, the open one included. */
  function Closed(st: State): seq<File>
    requires Complete(st)
  {
    match st.currentFile
    case None => st.files
    case Some(f) => st.files + [File(f.url, f.sha512.value, f.size.value)]
  }

  /** The states that reading further files or entries from `st` can lead to. */
  predicate Grown(st: State, r: State, files: seq<File>, extras: map<string, Scalar>) {
    && Complete(r) && Closed(r) == files && r.extras == extras
    && r.version == st.version && r.releaseDate == st.releaseDate
  }

  predicate Accepted(f: File) {
    TrimEnd(f.url) != [] && TrimEnd(f.sha512) != [] && 0 <= f.size < EXPONENT_FROM
  }

  function RereadFile(f: File): File {
    File(Reread(f.url), Reread(f.sha512), f.size)
  }

  function RereadFiles(files: seq<File>): seq<File> {
    seq(|files|, i requires 0 <= i < |files| => RereadFile(files[i]))
  }

  lemma {:induction false} FoldAppend(st: State, a: seq<string>, b: seq<string>, n: nat)
    ensures Fold(st, a + b, n) == match Fold(st, a, n)
      case Err(e) => Err(e)
      case Ok(st') => Fold(st', b, n + |a|)
    decreases |a|
  {
    hide Step, ClassifyLine;
    if a == [] {
      assert a + b == b;
    } else {
      assert (a + b)[1..] == a[1..] + b;
      match Step(st, ClassifyLine(a[0]), n + 1) {
        case Err(e) =>
        case Ok(st') => FoldAppend(st', a[1..], b, n + 1);
      }
    }
  }

  lemma FoldOne(st: State, l: string, n: nat)
    ensures Fold(st, [l], n) == Step(st, ClassifyLine(l), n + 1)
  {
    hide Step, ClassifyLine;
    assert [l][1..] == [];
  }

  lemma FoldThree(st: State, a: string, b: string, c: string, n: nat)
    ensures Fold(st, [a, b, c], n) == match Step(st, ClassifyLine(a), n + 1)
      case Err(e) => Err(e)
      case Ok(s1) => match Step(s1, ClassifyLine(b), n + 2)
        case Err(e) => Err(e)
        case Ok(s2) => Step(s2, ClassifyLine(c), n + 3)
  {
    hide Step, ClassifyLine;
    FoldAppend(st, [a], [b, c], n);
    assert [a] + [b, c] == [a, b, c];
    FoldOne(st, a, n);
    match Step(st, ClassifyLine(a), n + 1) {
      case Err(e) =>
      case Ok(s1) =>
        FoldAppend(s1, [b], [c], n + 1);
        assert [b] + [c] == [b, c];
        FoldOne(s1, b, n + 1);
        match Step(s1, ClassifyLine(b), n + 2) {
          case Err(e) =>
          case Ok(s2) => FoldOne(s2, c, n + 2);
        }
    }
  }

  function AfterFile(st: State, f: File): State
    requires Complete(st) && Accepted(f)
  {
    st.(files := Closed(st), inFiles := true,
        currentFile := Some(PartialFile(Reread(f.url), Some(Reread(f.sha512)), Some(f.size))))
  }

  /** The three lines of one file. */
  lemma FileFold(f: File, st: State, n: nat)
    requires Complete(st) && OneLine(f.url) && OneLine(f.sha512)
    ensures var r := Fold(st, [UrlText(f.url), Sha512Text(f.sha512), SizeText(f.size)], n);
      if Accepted(f) then r == Ok(AfterFile(st, f)) else r.Err?
  {
    hide ClassifyLine, UrlText, Sha512Text, SizeText, Reread, TrimEnd, OneLine;
    FoldThree(st, UrlText(f.url), Sha512Text(f.sha512), SizeText(f.size), n);
    UrlLine(f.url);
    Sha512Line(f.sha512);
    SizeLine(f.size);
  }

  lemma {:induction false} FilesFold(files: seq<File>, st: State, n: nat)
    requires Complete(st) && forall f | f in files :: OneLine(f.url) && OneLine(f.sha512)
    ensures var r := Fold(st, FileLines(files), n);
      if forall f | f in files :: Accepted(f) then r.Ok? && Grown(st, r.value, Closed(st) + RereadFiles(files), st.extras)
      else r.Err?
    decreases |files|
  {
    hide UrlText, Sha512Text, SizeText, OneLine, Accepted, RereadFile;
    if files == [] {
      assert RereadFiles(files) == [];
    } else {
      var f, rest := files[0], files[1..];
      var block := [UrlText(f.url), Sha512Text(f.sha512), SizeText(f.size)];
      FileFold(f, st, n);
      FoldAppend(st, block, FileLines(rest), n);
      assert files == [f] + rest;
      match Fold(st, block, n) {
        case Err(e) =>
        case Ok(st') =>
          OneMoreFile(f, st, rest);
          FilesFold(rest, st', n + 3);
      }
    }
  }

  lemma OneMoreFile(f: File, st: State, rest: seq<File>)
    requires Complete(st) && Accepted(f)
    ensures Complete(AfterFile(st, f))
    ensures Closed(AfterFile(st, f)) + RereadFiles(rest) == Closed(st) + RereadFiles([f] + rest)
  {
    hide Reread, Accepted;
    assert Closed(AfterFile(st, f)) == Closed(st) + [RereadFile(f)];
  }

  lemma EntryStep(st: State, key: string, v: Scalar, n: nat)
    requires Complete(st) && IsIdentifier(key) && (v.Text? ==> OneLine(v.text))
    ensures Step(st, ClassifyLine(EntryText(key, ScalarText(v))), n)
         == SetTopLevel(st.(files := Closed(st), inFiles := false, currentFile := None), key, RereadScalar(v), n)
  {
    hide ClassifyLine, EntryText, ScalarText, ParseScalar, OneLine, Trimmed, IsIdentifier, SetTopLevel, RereadScalar;
    ScalarShape(v);
    EntryLine(key, ScalarText(v));
  }

  function Left(st: State): State
    requires Complete(st)
  {
    st.(files := Closed(st), inFiles := false, currentFile := None)
  }

  function Entered(base: map<string, Scalar>, keys: seq<string>, extras: map<string, Scalar>): map<string, Scalar>
    requires forall k | k in keys :: k in extras
    decreases |keys|
  {
    if keys == [] then base else Entered(base[keys[0] := extras[keys[0]]], keys[1..], extras)
  }

  lemma {:induction false} EnteredSpec(base: map<string, Scalar>, keys: seq<string>, extras: map<string, Scalar>)
    requires forall k | k in keys :: k in extras
    ensures Entered(base, keys, extras) == base + map k | k in keys :: extras[k]
    decreases |keys|
  {
    if keys != [] {
      EnteredSpec(base[keys[0] := extras[keys[0]]], keys[1..], extras);
    }
  }

  lemma EnteredAll(keys: seq<string>, extras: map<string, Scalar>)
    requires forall k :: k in keys <==> k in extras
    ensures Entered(map[], keys, extras) == extras
  {
    EnteredSpec(map[], keys, extras);
    assert map[] + (map k | k in keys :: extras[k]) == extras;
  }

  function RereadExtras(extras: map<string, Scalar>): map<string, Scalar> {
    map k | k in extras :: RereadScalar(extras[k])
  }

  lemma {:induction false} ExtrasFold(keys: seq<string>, extras: map<string, Scalar>, st: State, n: nat)
    requires Complete(st) && forall k | k in keys :: k in extras && ReadableExtra(k, extras[k])
    ensures var r := Fold(st, ExtraLines(keys, extras), n);
      r.Ok? && Grown(st, r.value, Closed(st), Entered(st.extras, keys, RereadExtras(extras)))
    decreases |keys|
  {
    hide EntryText, ScalarText, IsIdentifier, OneLine, ClassifyLine, Step, RereadScalar;
    if keys != [] {
      var k, rest := keys[0], keys[1..];
      assert ReadableExtra(k, extras[k]);
      EntryStep(st, k, extras[k], n + 1);
      ExtrasFold(rest, extras, Left(st).(extras := st.extras[k := RereadScalar(extras[k])]), n + 1);
    }
  }

  predicate Readable(m: Manifest) {
    && OneLine(m.version) && OneLine(m.releaseDate)
    && (forall f | f in m.files :: OneLine(f.url) && OneLine(f.sha512))
    && (forall k | k in m.extras :: ReadableExtra(k, m.extras[k]))
  }

  lemma NothingRead(st: State, files: seq<File>)
    requires Complete(st) && st.currentFile.None? && st.files == []
    ensures Closed(st) + files == files
  {}

  /** The printed lines but for the last two. */
  lemma BodyFold(m: Manifest, head: seq<string>, extraLines: seq<string>)
    requires Readable(m) && head == [EntryText("version", Quote(m.version)), FILES_HEADER]
    requires (forall k | k in SortedKeys(m.extras.Keys) :: k in m.extras) && extraLines == ExtraLines(SortedKeys(m.extras.Keys), m.extras)
    ensures var r := Fold(START, head + FileLines(m.files) + extraLines, 0);
      if forall f | f in m.files :: Accepted(f)
      then r.Ok? && Grown(START.(version := Some(m.version)), r.value, RereadFiles(m.files), RereadExtras(m.extras))
      else r.Err?
  {
    hide EntryText, FileLines, ExtraLines, SortedKeys, Quote, OneLine, Accepted, Fold, ReadableExtra, RereadScalar, RereadFiles, Entered, Closed;
    SortedKeysMembers(m.extras.Keys);
    var keys := SortedKeys(m.extras.Keys);
    var fileLines := FileLines(m.files);
    FoldAppend(START, head + fileLines, extraLines, 0);
    FoldAppend(START, head, fileLines, 0);
    HeadFold(m.version);
    var s1 := START.(version := Some(m.version), inFiles := true);
    FilesFold(m.files, s1, 2);
    NothingRead(s1, RereadFiles(m.files));
    if forall f | f in m.files :: Accepted(f) {
      var s2 := Fold(s1, fileLines, 2).value;
      ExtrasFold(keys, m.extras, s2, |head + fileLines|);
      EnteredAll(keys, RereadExtras(m.extras));
    }
  }

  /** The whole printed text, when no line of it is broken. */
  lemma ParsePrinted(m: Manifest)
    requires Readable(m)
    ensures var r := Parse(Serialize(m));
      if (forall f | f in m.files :: Accepted(f)) && m.version != [] && m.releaseDate != [] && m.files != []
      then r == Ok(m.(files := RereadFiles(m.files), extras := RereadExtras(m.extras)))
      else r.Err?
  {
    hide EntryText, FileLines, ExtraLines, SortedKeys, Quote, OneLine, Accepted, Fold, ReadableExtra, RereadScalar, RereadFile;
    var lines := SerializeLines(m);
    SerializedLinesAreWhole(m);
    SplitJoin(lines);
    SortedKeysMembers(m.extras.Keys);
    var head := [EntryText("version", Quote(m.version)), FILES_HEADER];
    var extraLines := ExtraLines(SortedKeys(m.extras.Keys), m.extras);
    var body := head + FileLines(m.files) + extraLines;
    var tail := [EntryText("releaseDate", Quote(m.releaseDate)), []];
    assert lines == body + tail;
    FoldAppend(START, body, tail, 0);
    BodyFold(m, head, extraLines);
    if forall f | f in m.files :: Accepted(f) {
      TailFold(Fold(START, body, 0).value, m.releaseDate, |body|);
    }
  }

  lemma HeadFold(version: string)
    requires OneLine(version)
    ensures Fold(START, [EntryText("version", Quote(version)), FILES_HEADER], 0)
         == Ok(START.(version := Some(version), inFiles := true))
  {
    hide ClassifyLine, EntryText, Quote, OneLine;
    var a := EntryText("version", Quote(version));
    FoldAppend(START, [a], [FILES_HEADER], 0);
    assert [a] + [FILES_HEADER] == [a, FILES_HEADER];
    FoldOne(START, a, 0);
    assert Quote(version) == ScalarText(Text(version));
    EntryStep(START, "version", Text(version), 1);
    var st := START.(version := Some(version));
    FoldOne(st, FILES_HEADER, 1);
    HeaderLine();
  }

  lemma HeaderLine()
    ensures ClassifyLine(FILES_HEADER) == FilesHeader
  {
    assert TrimEnd(FILES_HEADER) == FILES_HEADER;
    assert FILES_HEADER[0] == 'f';
  }

  lemma TailFold(st: State, releaseDate: string, n: nat)
    requires Complete(st) && OneLine(releaseDate)
    ensures Fold(st, [EntryText("releaseDate", Quote(releaseDate)), []], n)
         == Ok(st.(files := Closed(st), inFiles := false, currentFile := None, releaseDate := Some(releaseDate)))
  {
    hide ClassifyLine, EntryText, Quote, OneLine;
    var a := EntryText("releaseDate", Quote(releaseDate));
    var none: string := [];
    FoldAppend(st, [a], [none], n);
    assert [a] + [none] == [a, none];
    FoldOne(st, a, n);
    assert Quote(releaseDate) == ScalarText(Text(releaseDate));
    EntryStep(st, "releaseDate", Text(releaseDate), n + 1);
    var st' := st.(files := Closed(st), inFiles := false, currentFile := None, releaseDate := Some(releaseDate));
    FoldOne(st', none, n + 1);
    BlankLine();
  }

  lemma BlankLine()
    ensures ClassifyLine([]) == Blank
  {}

  // No printed line is broken

  lemma JoinedOneLine(a: string, b: string)
    requires OneLine(a) && OneLine(b)
    ensures OneLine(a + ": " + b) && OneLine(a + " " + b)
  {
    OneLineSplit(a, ": ");
    OneLineSplit(a + ": ", b);
    OneLineSplit(a, " ");
    OneLineSplit(a + " ", b);
  }

  lemma LabelsAreWhole()
    ensures OneLine(URL_FIELD) && OneLine(SHA512_FIELD) && OneLine(SIZE_FIELD) && OneLine(FILES_HEADER) && OneLine([])
    ensures OneLine("version") && OneLine("releaseDate")
  {}

  lemma {:induction false} FileLinesAreWhole(files: seq<File>)
    requires forall f | f in files :: OneLine(f.url) && OneLine(f.sha512)
    ensures forall l | l in FileLines(files) :: OneLine(l)
  {
    hide OneLine, IntText;
    if files != [] {
      var f := files[0];
      LabelsAreWhole();
      IntShape(f.size);
      JoinedOneLine(URL_FIELD, f.url);
      JoinedOneLine(SHA512_FIELD, f.sha512);
      JoinedOneLine(SIZE_FIELD, IntText(f.size));
      FileLinesAreWhole(files[1..]);
    }
  }

  lemma IdentifierIsWhole(key: string)
    requires IsIdentifier(key)
    ensures OneLine(key)
  {
    assert forall i | 0 <= i < |key| :: IsKeyChar(key[i]);
  }

  lemma {:induction false} ExtraLinesAreWhole(keys: seq<string>, extras: map<string, Scalar>)
    requires forall k | k in keys :: k in extras && ReadableExtra(k, extras[k])
    ensures forall l | l in ExtraLines(keys, extras) :: OneLine(l)
  {
    hide OneLine, IsIdentifier, ScalarText, Trimmed, ParseScalar;
    if keys != [] {
      var k := keys[0];
      assert ReadableExtra(k, extras[k]);
      IdentifierIsWhole(k);
      ScalarShape(extras[k]);
      JoinedOneLine(k, ScalarText(extras[k]));
      ExtraLinesAreWhole(keys[1..], extras);
    }
  }

  lemma SerializedLinesAreWhole(m: Manifest)
    requires Readable(m)
    ensures forall l | l in SerializeLines(m) :: OneLine(l)
  {
    hide OneLine, Quote, Trimmed, FileLines, ExtraLines, SortedKeys, ReadableExtra;
    SortedKeysMembers(m.extras.Keys);
    LabelsAreWhole();
    QuoteShape(m.version);
    QuoteShape(m.releaseDate);
    JoinedOneLine("version", Quote(m.version));
    JoinedOneLine("releaseDate", Quote(m.releaseDate));
    FileLinesAreWhole(m.files);
    ExtraLinesAreWhole(SortedKeys(m.extras.Keys), m.extras);
  }

  // What the parser can return at all

  predicate Sane(st: State) {
    && (st.version.Some? ==> OneLine(st.version.value))
    && (st.releaseDate.Some? ==> OneLine(st.releaseDate.value))
    && (forall f | f in st.files :: SaneFile(f))
    && (forall k | k in st.extras :: ReadableExtra(k, st.extras[k]))
    && (st.currentFile.Some? ==> SanePartial(st.currentFile.value))
  }

  predicate SanePartial(f: PartialFile) {
    OneLine(f.url) && (f.sha512.Some? ==> OneLine(f.sha512.value))
  }

  predicate SaneFile(f: File) {
    OneLine(f.url) && OneLine(f.sha512) && f.size >= 0
  }

  predicate SaneLine(l: Line) {
    match l
    case FileUrl(url) => OneLine(url)
    case FileSha512(sha512) => OneLine(sha512)
    case TopLevel(key, rawValue) => IsIdentifier(key) && OneLine(rawValue)
    case _ => true
  }

  lemma {:induction false} UnescapeOneLine(s: string)
    requires OneLine(s)
    ensures OneLine(Unescape(s))
    decreases |s|
  {
    hide IsLineTerminator;
    if |s| >= 2 && s[0] == '\'' && s[1] == '\'' {
      UnescapeOneLine(s[2..]);
      OneLineSplit([s[0]], Unescape(s[2..]));
    } else if s != [] {
      UnescapeOneLine(s[1..]);
      OneLineSplit([s[0]], Unescape(s[1..]));
    }
  }

  lemma StripOneLine(s: string)
    requires OneLine(s)
    ensures OneLine(Trim(s)) && OneLine(StripSingleQuotes(s)) && OneLine(Unescape(Inner(s)))
  {
    hide Unescape, TrimStart, TrimEnd, IsLineTerminator;
    OneLineParts(s);
    OneLineParts(TrimStart(s));
    UnescapeOneLine(Inner(s));
  }

  lemma FieldOneLine(rest: string)
    ensures FieldValue(rest).Some? ==> OneLine(FieldValue(rest).value)
    ensures FieldValue(rest).Some? ==> OneLine(StripSingleQuotes(Trim(FieldValue(rest).value)))
  {
    hide StripSingleQuotes, Trim, TrimStart;
    if FieldValue(rest).Some? {
      var v := FieldValue(rest).value;
      StripOneLine(v);
      StripOneLine(Trim(v));
    }
  }

  lemma KeyIsIdentifier(line: string)
    requires TopLevelLine(line).Some?
    ensures IsIdentifier(TopLevelLine(line).value.key)
  {
    hide FieldValue;
  }

  lemma ClassifiedIsSane(rawLine: string)
    ensures SaneLine(ClassifyLine(rawLine))
  {
    hide FieldValue, StripSingleQuotes, Trim, TrimEnd, OneLine, IsIdentifier;
    var line := TrimEnd(rawLine);
    if URL_FIELD <= line { FieldOneLine(line[|URL_FIELD|..]); }
    if SHA512_FIELD <= line { FieldOneLine(line[|SHA512_FIELD|..]); }
    if TopLevelLine(line).Some? {
      KeyIsIdentifier(line);
      FieldOneLine(line[KeyRun(line) + 1..]);
    }
  }

  lemma ParsedScalarIsSane(raw: string)
    requires OneLine(raw)
    ensures ParseScalar(raw).Text? ==> OneLine(ParseScalar(raw).text)
  {
    hide OneLine, Trim, Unescape, Inner, ParseNumber, QuoteWrapped;
    StripOneLine(raw);
    StripOneLine(Trim(raw));
  }

  lemma FinalizeSane(st: State, n: nat)
    requires Sane(st)
    ensures Finalize(st, n).Ok? ==> Sane(Finalize(st, n).value) && Finalize(st, n).value.currentFile.None?
  {
    hide OneLine, ReadableExtra;
  }

  lemma TopLevelSane(st: State, key: string, raw: string, n: nat)
    requires Sane(st) && IsIdentifier(key) && OneLine(raw)
    ensures SetTopLevel(st, key, ParseScalar(raw), n).Ok? ==> Sane(SetTopLevel(st, key, ParseScalar(raw), n).value)
  {
    hide OneLine, ParseScalar, IsIdentifier, SaneFile, SanePartial;
    ParsedScalarIsSane(raw);
  }

  lemma LeaveFilesSane(st: State, n: nat)
    requires Sane(st)
    ensures LeaveFiles(st, n).Ok? ==> Sane(LeaveFiles(st, n).value)
  {
    hide OneLine, ReadableExtra, Finalize, SaneFile;
    FinalizeSane(st, n);
  }

  lemma StepSane(st: State, l: Line, n: nat)
    requires Sane(st) && SaneLine(l)
    ensures Step(st, l, n).Ok? ==> Sane(Step(st, l, n).value)
  {
    hide OneLine, IsIdentifier, SetTopLevel, LeaveFiles, SaneFile, ReadableExtra;
    FinalizeSane(st, n);
    LeaveFilesSane(st, n);
    if l.TopLevel? && LeaveFiles(st, n).Ok? {
      TopLevelSane(LeaveFiles(st, n).value, l.key, l.rawValue, n);
    }
  }

  lemma {:induction false} FoldSane(st: State, lines: seq<string>, n: nat)
    requires Sane(st)
    ensures Fold(st, lines, n).Ok? ==> Sane(Fold(st, lines, n).value)
    decreases |lines|
  {
    hide Sane, SaneLine, Step, ClassifyLine;
    if lines != [] {
      ClassifiedIsSane(lines[0]);
      StepSane(st, ClassifyLine(lines[0]), n + 1);
      match Step(st, ClassifyLine(lines[0]), n + 1) {
        case Err(e) =>
        case Ok(st') => FoldSane(st', lines[1..], n + 1);
      }
    }
  }

  /** Whatever text was parsed, the result has a version, a date, files, no line terminator in
      any string, no negative size, and only unreserved identifiers as extra keys. */
  lemma ParsedIsSane(raw: string)
    ensures var r := Parse(raw);
      r.Ok? ==> Readable(r.value) && r.value.version != [] && r.value.releaseDate != [] && r.value.files != []
                && forall f | f in r.value.files :: f.size >= 0
  {
    hide OneLine, ReadableExtra, SplitLines, Fold;
    var lines := SplitLines(raw);
    FoldSane(START, lines, 0);
    if Fold(START, lines, 0).Ok? {
      FinalizeSane(Fold(START, lines, 0).value, |lines|);
    }
  }

  lemma RereadFileClean(f: File)
    requires OneLine(f.url) && OneLine(f.sha512)
    ensures (Accepted(f) && RereadFile(f) == f) <==> PrintableFile(f)
  {
    hide Reread, TrimEnd, Clean, OneLine;
    RereadClean(f.url);
    RereadClean(f.sha512);
  }

  lemma RereadFilesClean(files: seq<File>)
    requires forall f | f in files :: OneLine(f.url) && OneLine(f.sha512)
    ensures ((forall f | f in files :: Accepted(f)) && RereadFiles(files) == files) <==> forall f | f in files :: PrintableFile(f)
  {
    hide RereadFile, Accepted, PrintableFile, OneLine;
    forall i | 0 <= i < |files| ensures (Accepted(files[i]) && RereadFile(files[i]) == files[i]) <==> PrintableFile(files[i]) {
      RereadFileClean(files[i]);
    }
    if RereadFiles(files) == files {
      forall i | 0 <= i < |files| ensures RereadFile(files[i]) == files[i] {
        assert RereadFiles(files)[i] == RereadFile(files[i]);
      }
    }
  }

  lemma RereadExtrasPlain(extras: map<string, Scalar>)
    ensures RereadExtras(extras) == extras <==> forall k | k in extras :: extras[k].Num? ==> IsPlain(extras[k].number)
  {
    hide IsPlain, DecimalText;
    if RereadExtras(extras) == extras {
      forall k | k in extras ensures extras[k].Num? ==> IsPlain(extras[k].number) {
        assert RereadExtras(extras)[k] == RereadScalar(extras[k]);
      }
    }
  }

  lemma PrintableIsReadable(m: Manifest)
    ensures Printable(m) <==> Readable(m) && m.version != [] && m.releaseDate != [] && m.files != []
                              && (forall f | f in m.files :: PrintableFile(f))
                              && forall k | k in m.extras :: m.extras[k].Num? ==> IsPlain(m.extras[k].number)
  {
    hide OneLine, Trimmed, ReadableExtra, QuoteWrapped, IsPlain, PrintableFile;
    assert forall k | k in m.extras :: PrintableExtra(k, m.extras[k]) <==>
        ReadableExtra(k, m.extras[k]) && (m.extras[k].Num? ==> IsPlain(m.extras[k].number));
    if Printable(m) {
      forall f | f in m.files ensures OneLine(f.url) && OneLine(f.sha512) { PrintableFileIsWhole(f); }
    }
  }

  lemma PrintableFileIsWhole(f: File)
    requires PrintableFile(f)
    ensures OneLine(f.url) && OneLine(f.sha512)
  {
    hide OneLine;
  }

  /** The round trip, for every manifest: printing and parsing gives the manifest back exactly
      when it is printable. */
  lemma RoundTrip(m: Manifest)
    ensures Parse(Serialize(m)) == Ok(m) <==> Printable(m)
  {
    hide Parse, Serialize, Readable, Accepted, RereadFiles, RereadExtras, Printable, PrintableFile, IsPlain;
    PrintableIsReadable(m);
    ParsedIsSane(Serialize(m));
    RereadExtrasPlain(m.extras);
    if Readable(m) {
      ParsePrinted(m);
      ReadableFiles(m);
      RereadFilesClean(m.files);
    }
  }

  lemma ReadableFiles(m: Manifest)
    requires Readable(m)
    ensures forall f | f in m.files :: OneLine(f.url) && OneLine(f.sha512)
  {
    hide OneLine;
  }

  /** A manifest with a usable url that does not come back: quotes around it are taken off. */
  lemma QuotedUrlIsLost()
    ensures var m := Manifest("1", "2", [File("'u'", "h", 0)], map[]);
      Parse(Serialize(m)) == Ok(m.(files := [File("u", "h", 0)]))
  {
    var m := Manifest("1", "2", [File("'u'", "h", 0)], map[]);
    hide Parse, Serialize;
    var f := m.files[0];
    TrimmedIsFixed("'u'");
    TrimFixes("'u'");
    assert Inner("'u'") == "u";
    assert Unescape("u") == "u" by { assert "u"[1..] == []; }
    TrimmedIsFixed("h");
    TrimFixes("h");
    assert m.files == [f];
    ParsePrinted(m);
    assert RereadFiles(m.files) == [File("u", "h", 0)];
  }

  /** A number extra that does not come back: one ten-millionth is printed with an exponent and read
      as a text. */
  lemma TinyNumberIsLost()
    ensures var m := Manifest("1", "2", [File("u", "h", 0)], map["k" := Num(Decimal(false, 0, "0000001"))]);
      Parse(Serialize(m)) == Ok(m.(extras := map["k" := Text("1e-7")]))
  {
    hide Parse, Serialize, DecimalText, IsPlain, RereadFiles, RereadExtras, RereadFile, Clean, IsCanonicalDecimal;
    SevenZeros();
    var d: Decimal := Decimal(false, 0, "0000001");
    var m := Manifest("1", "2", [File("u", "h", 0)], map["k" := Num(d)]);
    SimpleFile();
    OneExtra("k", d);
    RereadFilesClean(m.files);
    ParsePrinted(m);
  }

  lemma SimpleFile()
    ensures PrintableFile(File("u", "h", 0)) && OneLine("u") && OneLine("h")
  {}

  lemma OneExtra(key: string, d: Decimal)
    requires !IsPlain(d)
    ensures RereadExtras(map[key := Num(d)]) == map[key := Text(DecimalText(d))]
  {
    hide IsPlain, DecimalText;
  }

  lemma SixZeros()
    ensures LeadingZeros("0000001") == 6
  {
    var s := "0000001";
    assert s[0] == '0' && s[1] == '0' && s[2] == '0' && s[3] == '0' && s[4] == '0' && s[5] == '0' && s[6] == '1';
  }

  lemma SevenZeros()
    ensures var d := Decimal(false, 0, "0000001");
            IsCanonicalDecimal(d) && !IsPlain(d) && DecimalText(d) == "1e-7"
  {
    hide LeadingZeros;
    SixZeros();
    assert NatText(7) == "7";
  }

  /** A text is cut at its first line feed, and a carriage return right before it goes too; without a line
      feed it is one line. */
  lemma LinesAreCut(l: string, rest: string)
    requires '\n' !in l
    ensures SplitLines(l) == [l]
    ensures SplitLines(l + "\r\n" + rest) == [l] + SplitLines(rest)
    ensures l == [] || l[|l| - 1] != '\r' ==> SplitLines(l + "\n" + rest) == [l] + SplitLines(rest)
  {
    hide SplitLines, FirstBreak, BreakAt;
    var n := |l|;
    var windows, unix := l + "\r\n" + rest, l + "\n" + rest;
    BreaksOf(l, rest);
    FirstBreakAt(l, n);
    SplitAt(l, n);
    FirstBreakAt(windows, n);
    SplitAt(windows, n);
    assert windows[..n] == l && windows[n + 2..] == rest;
    if l == [] || l[n - 1] != '\r' {
      FirstBreakAt(unix, n);
      SplitAt(unix, n);
      assert unix[..n] == l && unix[n + 1..] == rest;
    }
  }

  lemma BreaksOf(l: string, rest: string)
    requires '\n' !in l
    ensures var n, windows, unix := |l|, l + "\r\n" + rest, l + "\n" + rest;
      && (forall k | 0 <= k < n :: BreakAt(l, k) == 0 && BreakAt(windows, k) == 0)
      && BreakAt(windows, n) == 2 && BreakAt(unix, n) == 1
      && (l == [] || l[n - 1] != '\r' ==> forall k | 0 <= k < n :: BreakAt(unix, k) == 0)
  {
    var n, windows, unix := |l|, l + "\r\n" + rest, l + "\n" + rest;
    forall k | 0 <= k < n ensures l[k] != '\n' && windows[k] == l[k] && unix[k] == l[k] { assert l[k] in l; }
    assert windows[n] == '\r' && windows[n + 1] == '\n' && unix[n] == '\n';
  }

  lemma FirstBreakAt(raw: string, n: nat)
    requires n <= |raw| && forall k | 0 <= k < n :: BreakAt(raw, k) == 0
    requires n < |raw| ==> BreakAt(raw, n) > 0
    ensures FirstBreak(raw, 0) == n
  {}

  lemma SplitAt(raw: string, n: nat)
    requires FirstBreak(raw, 0) == n
    ensures SplitLines(raw) == if n == |raw| then [raw] else [raw[..n]] + SplitLines(raw[n + BreakAt(raw, n)..])
  {
    hide FirstBreak, BreakAt;
  }

  /** Extras are printed in ascending order of their keys. */
  lemma {:induction false} KeysAscend(keys: set<string>)
    ensures forall i, j | 0 <= i < j < |SortedKeys(keys)| :: LexLe(SortedKeys(keys)[i], SortedKeys(keys)[j])
  {
    hide LexLe;
    if keys != {} {
      LeastKey(keys);
      var k :| k in keys && forall x | x in keys :: LexLe(k, x);
      var rest := SortedKeys(keys - {k});
      KeysAscend(keys - {k});
      SortedKeysMembers(keys - {k});
      assert forall j | 0 <= j < |rest| :: rest[j] in rest;
    }
  }
}
