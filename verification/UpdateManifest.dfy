/** Update manifests: the line oriented parser and the printer. */
module UpdateManifest {
  import opened Text

  datatype Result<+T, +E> = Ok(value: T) | Err(error: E)

  datatype File = File(url: string, sha512: string, size: int)

  /** A finite number by its digits, rounding aside: an optional sign, the whole part, and a fraction
      without trailing zeros. Minus zero is zero. */
  datatype DecimalDigits = Decimal(negative: bool, whole: nat, fraction: string)

  predicate IsCanonicalDecimal(d: DecimalDigits) {
    && AllDigits(d.fraction)
    && (d.fraction != [] ==> d.fraction[|d.fraction| - 1] != '0')
    && (d.negative ==> d.whole > 0 || d.fraction != [])
  }

  type Decimal = d: DecimalDigits | IsCanonicalDecimal(d) witness Decimal(false, 0, [])

  datatype Scalar = Text(text: string) | Num(number: Decimal) | Bool(flag: bool)

  datatype Manifest = Manifest(version: string, releaseDate: string, files: seq<File>, extras: map<string, Scalar>)

  datatype ParseError =
    | IncompleteFile(line: nat)
    | Sha512WithoutFile(line: nat)
    | SizeWithoutFile(line: nat)
    | UnsupportedLine(line: nat)
    | VersionNotText(line: nat)
    | ReleaseDateNotText(line: nat)
    | MissingVersion
    | MissingReleaseDate
    | MissingFiles

  // Quoting

  /** `value.replace(/'/g, "''")` */
  function Escape(s: string): string {
    if s == [] then [] else if s[0] == '\'' then ['\'', '\''] + Escape(s[1..]) else [s[0]] + Escape(s[1..])
  }

  /** `value.replace(/''/g, "'")` */
  function Unescape(s: string): string {
    if s == [] then []
    else if |s| >= 2 && s[0] == '\'' && s[1] == '\'' then ['\''] + Unescape(s[2..])
    else [s[0]] + Unescape(s[1..])
  }

  function Quote(s: string): string {
    ['\''] + Escape(s) + ['\'']
  }

  predicate QuoteWrapped(s: string) {
    s != [] && s[0] == '\'' && s[|s| - 1] == '\''
  }

  /** `s.slice(1, -1)` */
  function Inner(s: string): string {
    if |s| < 2 then [] else s[1..|s| - 1]
  }

  function StripSingleQuotes(s: string): string {
    if QuoteWrapped(s) then Unescape(Inner(s)) else s
  }

  // Scalars

  function StripZeros(s: string): (t: string)
    ensures AllDigits(s) ==> AllDigits(t)
    ensures t != [] ==> t[|t| - 1] != '0'
  {
    if s != [] && s[|s| - 1] == '0' then StripZeros(s[..|s| - 1]) else s
  }

  /** Length of the run of digits at the front. */
  function DigitRun(s: string): (n: nat)
    ensures n <= |s| && AllDigits(s[..n]) && (n < |s| ==> !IsDigit(s[n]))
  {
    if s == [] || !IsDigit(s[0]) then 0
    else
      var n := 1 + DigitRun(s[1..]);
      assert forall i | 0 < i < n :: s[i] == s[1..][i - 1];
      n
  }

  function MakeDecimal(negative: bool, whole: string, fraction: string): Decimal
    requires AllDigits(whole) && AllDigits(fraction)
  {
    var w, f := NatValue(whole), StripZeros(fraction);
    Decimal(negative && (w > 0 || f != []), w, f)
  }

  /** `/^-?\d+(?:\.\d+)?$/` and `Number(s)` */
  function ParseUnsigned(negative: bool, s: string): Option<Decimal> {
    var n := DigitRun(s);
    if n == 0 then None
    else if n == |s| then Some(MakeDecimal(negative, s[..n], []))
    else if s[n] == '.' && n + 1 < |s| && AllDigits(s[n + 1..]) then Some(MakeDecimal(negative, s[..n], s[n + 1..]))
    else None
  }

  function ParseNumber(s: string): Option<Decimal> {
    if s != [] && s[0] == '-' then ParseUnsigned(true, s[1..]) else ParseUnsigned(false, s)
  }

  function ParseScalar(rawValue: string): Scalar {
    var trimmed := Trim(rawValue);
    if QuoteWrapped(trimmed) && |trimmed| >= 2 then Text(Unescape(Inner(trimmed)))
    else if trimmed == "true" then Bool(true)
    else if trimmed == "false" then Bool(false)
    else match ParseNumber(trimmed)
      case Some(d) => Num(d)
      case None => Text(trimmed)
  }

  /** From here on numbers are printed with an exponent: ten to the 21st. */
  const EXPONENT_FROM: nat := 1_000_000_000_000_000_000_000

  function LeadingZeros(s: string): (n: nat)
    ensures n <= |s| && (n < |s| ==> s[n] != '0') && forall i | 0 <= i < n :: s[i] == '0'
  {
    if s == [] || s[0] != '0' then 0
    else
      var n := 1 + LeadingZeros(s[1..]);
      assert forall i | 0 < i < n :: s[i] == s[1..][i - 1];
      n
  }

  /** Printed without an exponent: below ten to the 21st, and not below a millionth unless zero. */
  predicate IsPlain(d: DecimalDigits) {
    d.whole < EXPONENT_FROM && (d.whole == 0 && d.fraction != [] ==> LeadingZeros(d.fraction) < 6)
  }

  function PlainText(d: Decimal): string {
    NatText(d.whole) + (if d.fraction == [] then [] else ['.'] + d.fraction)
  }

  /** One digit, the others behind a point, and the power of ten. */
  function Scientific(first: char, others: string, power: string): string {
    [first] + (if others == [] then [] else ['.'] + others) + "e" + power
  }

  function ExponentText(d: Decimal): string {
    if d.whole > 0 then
      var digits := NatText(d.whole);
      Scientific(digits[0], StripZeros(digits[1..] + d.fraction), "+" + NatText(|digits| - 1))
    else
      var zeros := LeadingZeros(d.fraction);
      if zeros == |d.fraction| then "0"
      else Scientific(d.fraction[zeros], d.fraction[zeros + 1..], "-" + NatText(zeros + 1))
  }

  /** `String(number)` */
  function DecimalText(d: Decimal): string {
    (if d.negative then "-" else "") + (if IsPlain(d) then PlainText(d) else ExponentText(d))
  }

  function ScalarText(v: Scalar): string {
    match v
    case Text(text) => Quote(text)
    case Num(number) => DecimalText(number)
    case Bool(flag) => if flag then "true" else "false"
  }

  // Lines

  /** One break is `\n` with a `\r` right before it, if any. */
  function BreakAt(raw: string, i: nat): nat
    requires i < |raw|
  {
    if raw[i] == '\n' then 1 else if raw[i] == '\r' && i + 1 < |raw| && raw[i + 1] == '\n' then 2 else 0
  }

  function FirstBreak(raw: string, i: nat): (j: nat)
    requires i <= |raw|
    ensures i <= j <= |raw| && (j < |raw| ==> BreakAt(raw, j) > 0)
    ensures forall k | i <= k < j :: BreakAt(raw, k) == 0
    decreases |raw| - i
  {
    if i == |raw| || BreakAt(raw, i) > 0 then i else FirstBreak(raw, i + 1)
  }

  /** `raw.split(/\r?\n/)` */
  function SplitLines(raw: string): (lines: seq<string>)
    ensures lines != []
    decreases |raw|
  {
    var j := FirstBreak(raw, 0);
    if j == |raw| then [raw] else [raw[..j]] + SplitLines(raw[j + BreakAt(raw, j)..])
  }

  /** `lines.join("\n")` */
  function JoinLines(lines: seq<string>): string {
    if lines == [] then [] else if |lines| == 1 then lines[0] else lines[0] + ['\n'] + JoinLines(lines[1..])
  }

  const URL_FIELD := "  - url:"
  const SHA512_FIELD := "    sha512:"
  const SIZE_FIELD := "    size:"
  const FILES_HEADER := "files:"

  /** `\s*(.+)$` on the rest of a line without trailing white space: the white space is taken as
      far as it goes, and what is left must be a non-empty single line. */
  function FieldValue(rest: string): Option<string> {
    var value := TrimStart(rest);
    if value != [] && OneLine(value) then Some(value) else None
  }

  predicate IsKeyChar(c: char) {
    IsLetter(c) || IsDigit(c)
  }

  function KeyRun(s: string): (n: nat)
    ensures n <= |s| && (n < |s| ==> !IsKeyChar(s[n])) && forall i | 0 <= i < n :: IsKeyChar(s[i])
  {
    if s == [] || !IsKeyChar(s[0]) then 0
    else
      var n := 1 + KeyRun(s[1..]);
      assert forall i | 0 < i < n :: s[i] == s[1..][i - 1];
      n
  }

  predicate IsIdentifier(key: string) {
    key != [] && IsLetter(key[0]) && forall i | 0 <= i < |key| :: IsKeyChar(key[i])
  }

  datatype Line =
    | Blank
    | FileUrl(url: string)
    | FileSha512(sha512: string)
    | FileSize(size: nat)
    | FilesHeader
    | TopLevel(key: string, rawValue: string)
    | Unsupported

  function FileUrlLine(line: string): Option<Line> {
    if URL_FIELD <= line then
      match FieldValue(line[|URL_FIELD|..])
      case Some(v) => Some(FileUrl(StripSingleQuotes(Trim(v))))
      case None => None
    else None
  }

  function FileSha512Line(line: string): Option<Line> {
    if SHA512_FIELD <= line then
      match FieldValue(line[|SHA512_FIELD|..])
      case Some(v) => Some(FileSha512(StripSingleQuotes(Trim(v))))
      case None => None
    else None
  }

  function FileSizeLine(line: string): Option<Line> {
    if SIZE_FIELD <= line then
      match FieldValue(line[|SIZE_FIELD|..])
      case Some(v) => if AllDigits(v) then Some(FileSize(NatValue(v))) else None
      case None => None
    else None
  }

  function TopLevelLine(line: string): Option<Line> {
    var n := KeyRun(line);
    if 0 < n < |line| && IsLetter(line[0]) && line[n] == ':' then
      match FieldValue(line[n + 1..])
      case Some(v) => Some(TopLevel(line[..n], v))
      case None => None
    else None
  }

  function ClassifyTrimmed(line: string): Line {
    if line == [] then Blank
    else if FileUrlLine(line).Some? then FileUrlLine(line).value
    else if FileSha512Line(line).Some? then FileSha512Line(line).value
    else if FileSizeLine(line).Some? then FileSizeLine(line).value
    else if line == FILES_HEADER then FilesHeader
    else if TopLevelLine(line).Some? then TopLevelLine(line).value
    else Unsupported
  }

  /** Which of the parser's patterns a line matches first. */
  function ClassifyLine(rawLine: string): Line {
    ClassifyTrimmed(TrimEnd(rawLine))
  }

  // The parser as a fold over lines

  datatype PartialFile = PartialFile(url: string, sha512: Option<string>, size: Option<nat>)

  datatype State = State(version: Option<string>, releaseDate: Option<string>, files: seq<File>,
                         extras: map<string, Scalar>, inFiles: bool, currentFile: Option<PartialFile>)

  const START := State(None, None, [], map[], false, None)

  /** `parseFileRecord` and the push of its result. */
  function Finalize(st: State, line: nat): Result<State, ParseError> {
    match st.currentFile
    case None => Ok(st)
    case Some(f) =>
      if f.sha512.Some? && f.size.Some? then
        Ok(st.(files := st.files + [File(f.url, f.sha512.value, f.size.value)], currentFile := None))
      else Err(IncompleteFile(line))
  }

  function SetTopLevel(st: State, key: string, value: Scalar, line: nat): Result<State, ParseError> {
    if key == "version" then
      if value.Text? then Ok(st.(version := Some(value.text))) else Err(VersionNotText(line))
    else if key == "releaseDate" then
      if value.Text? then Ok(st.(releaseDate := Some(value.text))) else Err(ReleaseDateNotText(line))
    else if key == "path" || key == "sha512" then Ok(st)
    else Ok(st.(extras := st.extras[key := value]))
  }

  /** Leaving the file list: an entry that is still open is completed first. */
  function LeaveFiles(st: State, line: nat): Result<State, ParseError> {
    if st.inFiles && st.currentFile.Some? then
      match Finalize(st, line)
      case Err(e) => Err(e)
      case Ok(st') => Ok(st'.(inFiles := false))
    else Ok(st.(inFiles := false))
  }

  function Step(st: State, l: Line, line: nat): Result<State, ParseError> {
    match l
    case Blank => Ok(st)
    case FileUrl(url) =>
      (match Finalize(st, line)
       case Err(e) => Err(e)
       case Ok(st') => Ok(st'.(currentFile := Some(PartialFile(url, None, None)), inFiles := true)))
    case FileSha512(sha512) =>
      if st.currentFile.None? then Err(Sha512WithoutFile(line))
      else Ok(st.(currentFile := Some(st.currentFile.value.(sha512 := Some(sha512)))))
    case FileSize(size) =>
      if st.currentFile.None? then Err(SizeWithoutFile(line))
      else Ok(st.(currentFile := Some(st.currentFile.value.(size := Some(size)))))
    case FilesHeader => Ok(st.(inFiles := true))
    case TopLevel(key, rawValue) =>
      (match LeaveFiles(st, line)
       case Err(e) => Err(e)
       case Ok(st') => SetTopLevel(st', key, ParseScalar(rawValue), line))
    case Unsupported =>
      (match LeaveFiles(st, line)
       case Err(e) => Err(e)
       case Ok(st') => Err(UnsupportedLine(line)))
  }

  /** `n` is the number of the line before the first of `lines`. */
  function Fold(st: State, lines: seq<string>, n: nat): Result<State, ParseError>
    decreases |lines|
  {
    if lines == [] then Ok(st)
    else match Step(st, ClassifyLine(lines[0]), n + 1)
      case Err(e) => Err(e)
      case Ok(st') => Fold(st', lines[1..], n + 1)
  }

  function Finish(st: State, lineCount: nat): Result<Manifest, ParseError> {
    match Finalize(st, lineCount)
    case Err(e) => Err(e)
    case Ok(st') =>
      if st'.version.None? || st'.version.value == [] then Err(MissingVersion)
      else if st'.releaseDate.None? || st'.releaseDate.value == [] then Err(MissingReleaseDate)
      else if st'.files == [] then Err(MissingFiles)
      else Ok(Manifest(st'.version.value, st'.releaseDate.value, st'.files, st'.extras))
  }

  function ParseLines(lines: seq<string>): Result<Manifest, ParseError> {
    match Fold(START, lines, 0)
    case Err(e) => Err(e)
    case Ok(st) => Finish(st, |lines|)
  }

  function Parse(raw: string): Result<Manifest, ParseError> {
    ParseLines(SplitLines(raw))
  }

  /** The program's loop, with its own mutable variables. */
  method ParseUpdateManifest(raw: string) returns (r: Result<Manifest, ParseError>)
    ensures r == Parse(raw)
  {
    hide ClassifyLine, ParseScalar, SplitLines;
    var lines := SplitLines(raw);
    var files: seq<File> := [];
    var extras: map<string, Scalar> := map[];
    var version: Option<string> := None;
    var releaseDate: Option<string> := None;
    var inFiles := false;
    var currentFile: Option<PartialFile> := None;
    assert lines[0..] == lines;
    for index := 0 to |lines|
      invariant Fold(State(version, releaseDate, files, extras, inFiles, currentFile), lines[index..], index)
             == Fold(START, lines, 0)
    {
      var lineNumber := index + 1;
      var line := ClassifyLine(lines[index]);
      assert lines[index..][0] == lines[index] && lines[index..][1..] == lines[index + 1..];
      if line.Blank? {
        continue;
      }
      if line.FileUrl? {
        if currentFile.Some? {
          if currentFile.value.sha512.None? || currentFile.value.size.None? {
            return Err(IncompleteFile(lineNumber));
          }
          files := files + [File(currentFile.value.url, currentFile.value.sha512.value, currentFile.value.size.value)];
        }
        currentFile := Some(PartialFile(line.url, None, None));
        inFiles := true;
        continue;
      }
      if line.FileSha512? {
        if currentFile.None? {
          return Err(Sha512WithoutFile(lineNumber));
        }
        currentFile := Some(currentFile.value.(sha512 := Some(line.sha512)));
        continue;
      }
      if line.FileSize? {
        if currentFile.None? {
          return Err(SizeWithoutFile(lineNumber));
        }
        currentFile := Some(currentFile.value.(size := Some(line.size)));
        continue;
      }
      if line.FilesHeader? {
        inFiles := true;
        continue;
      }
      if inFiles && currentFile.Some? {
        if currentFile.value.sha512.None? || currentFile.value.size.None? {
          return Err(IncompleteFile(lineNumber));
        }
        files := files + [File(currentFile.value.url, currentFile.value.sha512.value, currentFile.value.size.value)];
        currentFile := None;
      }
      inFiles := false;
      if line.Unsupported? {
        return Err(UnsupportedLine(lineNumber));
      }
      var value := ParseScalar(line.rawValue);
      if line.key == "version" {
        if !value.Text? {
          return Err(VersionNotText(lineNumber));
        }
        version := Some(value.text);
        continue;
      }
      if line.key == "releaseDate" {
        if !value.Text? {
          return Err(ReleaseDateNotText(lineNumber));
        }
        releaseDate := Some(value.text);
        continue;
      }
      if line.key == "path" || line.key == "sha512" {
        continue;
      }
      extras := extras[line.key := value];
    }
    r := Finish(State(version, releaseDate, files, extras, inFiles, currentFile), |lines|);
  }

  // The printer

  ghost predicate IsLeast(k: string, keys: set<string>) {
    k in keys && forall x | x in keys :: LexLe(k, x)
  }

  lemma {:induction false} LeastExists(keys: set<string>)
    requires keys != {}
    ensures exists k :: IsLeast(k, keys)
  {
    hide LexLe;
    var k :| k in keys;
    LexTotal(k, k);
    if keys == {k} {
      assert IsLeast(k, keys);
    } else {
      var rest := keys - {k};
      LeastExists(rest);
      var l :| IsLeast(l, rest);
      LexTotal(k, l);
      if LexLe(l, k) {
        assert IsLeast(l, keys);
      } else {
        forall x | x in keys ensures LexLe(k, x) {
          if x != k { LexTransitive(k, l, x); }
        }
        assert IsLeast(k, keys);
      }
    }
  }

  lemma LeastIsUnique(a: string, b: string, keys: set<string>)
    requires IsLeast(a, keys) && IsLeast(b, keys)
    ensures a == b
  {
    hide LexLe;
    LexTotal(a, b);
  }

  /** The least key exists, and only one. */
  lemma LeastKey(keys: set<string>)
    requires keys != {}
    ensures exists k :: k in keys && forall x | x in keys :: LexLe(k, x)
    ensures forall a, b | a in keys && b in keys
      && (forall x | x in keys :: LexLe(a, x)) && (forall x | x in keys :: LexLe(b, x)) :: a == b
  {
    hide LexLe;
    LeastExists(keys);
    var k :| IsLeast(k, keys);
    forall a, b | a in keys && b in keys
      && (forall x | x in keys :: LexLe(a, x)) && (forall x | x in keys :: LexLe(b, x)) ensures a == b {
      LeastIsUnique(a, b, keys);
    }
  }

  /** `Object.keys(extras).toSorted()` */
  function SortedKeys(keys: set<string>): seq<string> {
    if keys == {} then []
    else
      LeastKey(keys);
      var k :| k in keys && forall x | x in keys :: LexLe(k, x);
      [k] + SortedKeys(keys - {k})
  }

  function IntText(n: int): string {
    DecimalText(Decimal(n < 0, if n < 0 then -n else n, []))
  }

  function UrlText(url: string): string { URL_FIELD + " " + url }

  function Sha512Text(sha512: string): string { SHA512_FIELD + " " + sha512 }

  function SizeText(size: int): string { SIZE_FIELD + " " + IntText(size) }

  function FileLines(files: seq<File>): seq<string> {
    if files == [] then []
    else [UrlText(files[0].url), Sha512Text(files[0].sha512), SizeText(files[0].size)] + FileLines(files[1..])
  }

  function EntryText(key: string, valueText: string): string {
    key + ": " + valueText
  }

  function ExtraLines(keys: seq<string>, extras: map<string, Scalar>): seq<string>
    requires forall k | k in keys :: k in extras
  {
    if keys == [] then [] else [EntryText(keys[0], ScalarText(extras[keys[0]]))] + ExtraLines(keys[1..], extras)
  }

  lemma {:induction false} SortedKeysMembers(keys: set<string>)
    ensures forall k :: k in SortedKeys(keys) <==> k in keys
    ensures |SortedKeys(keys)| == |keys|
  {
    if keys != {} {
      LeastKey(keys);
      var k :| k in keys && forall x | x in keys :: LexLe(k, x);
      SortedKeysMembers(keys - {k});
    }
  }

  function SerializeLines(m: Manifest): seq<string> {
    SortedKeysMembers(m.extras.Keys);
    [EntryText("version", Quote(m.version)), FILES_HEADER] + FileLines(m.files)
    + ExtraLines(SortedKeys(m.extras.Keys), m.extras) + [EntryText("releaseDate", Quote(m.releaseDate)), []]
  }

  function Serialize(m: Manifest): string {
    JoinLines(SerializeLines(m))
  }

  method SerializeUpdateManifest(m: Manifest) returns (text: string)
    ensures text == Serialize(m)
  {
    hide Quote, JoinLines, UrlText, Sha512Text, SizeText, EntryText, ScalarText, SortedKeys;
    var lines := [EntryText("version", Quote(m.version)), FILES_HEADER];
    ghost var head := lines;
    for i := 0 to |m.files|
      invariant lines + FileLines(m.files[i..]) == head + FileLines(m.files)
    {
      var file := m.files[i];
      assert m.files[i..][0] == file && m.files[i..][1..] == m.files[i + 1..];
      ghost var before := lines;
      lines := lines + [UrlText(file.url), Sha512Text(file.sha512), SizeText(file.size)];
      assert before + FileLines(m.files[i..]) == lines + FileLines(m.files[i + 1..]);
    }
    assert m.files[|m.files|..] == [] && lines + FileLines([]) == lines;
    ghost var withFiles := lines;
    SortedKeysMembers(m.extras.Keys);
    var keys := SortedKeys(m.extras.Keys);
    for i := 0 to |keys|
      invariant lines + ExtraLines(keys[i..], m.extras) == withFiles + ExtraLines(keys, m.extras)
    {
      assert keys[i..][0] == keys[i] && keys[i..][1..] == keys[i + 1..];
      ghost var before := lines;
      lines := lines + [EntryText(keys[i], ScalarText(m.extras[keys[i]]))];
      assert before + ExtraLines(keys[i..], m.extras) == lines + ExtraLines(keys[i + 1..], m.extras);
    }
    assert lines + ExtraLines([], m.extras) == lines;
    assert keys[|keys|..] == [];
    var last := [EntryText("releaseDate", Quote(m.releaseDate)), []];
    lines := lines + last;
    text := JoinLines(lines);
  }
}
