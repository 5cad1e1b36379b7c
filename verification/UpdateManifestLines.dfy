/** Lines that change nothing wherever they stand, and which lists of lines are accepted at all. */
module UpdateManifestLines {
  import opened Text
  import opened UpdateManifest
  import opened UpdateManifestRoundTrip

  /** Both are refused, or both accepted with one result. */
  predicate Agree(a: Result<Manifest, ParseError>, b: Result<Manifest, ParseError>) {
    if a.Ok? then a == b else b.Err?
  }

  /** The lines hold no hash and no size ahead of the next url or entry. */
  predicate NoLooseField(lines: seq<string>) {
    if lines == [] then true
    else
      match ClassifyLine(lines[0])
      case Blank => NoLooseField(lines[1..])
      case FilesHeader => NoLooseField(lines[1..])
      case FileSha512(_) => false
      case FileSize(_) => false
      case _ => true
  }

  // States that read on alike

  /** An open file belongs to the file list. */
  predicate Listed(st: State) {
    st.currentFile.Some? ==> st.inFiles
  }

  /** The same but for whether the file list goes on, and that only where no file is open. */
  predicate Alike(st: State, t: State) {
    Listed(st) && Listed(t) && t == st.(inFiles := t.inFiles)
  }

  /** `t` has closed the complete file that `st` has open. */
  predicate Shut(st: State, t: State) {
    st.currentFile.Some? && Complete(st) && t == st.(files := Closed(st), currentFile := None, inFiles := t.inFiles)
  }

  function Rest(st: State, lines: seq<string>, n: nat, m: nat): Result<Manifest, ParseError> {
    match Fold(st, lines, n)
    case Err(e) => Err(e)
    case Ok(st') => Finish(st', m)
  }

  lemma StepIsListed(st: State, l: Line, n: nat)
    requires Listed(st) && Step(st, l, n).Ok?
    ensures Listed(Step(st, l, n).value)
  {
    hide ParseScalar;
  }

  lemma AlikeStep(st: State, t: State, l: Line, n: nat, m: nat)
    requires Alike(st, t)
    ensures var r, u := Step(st, l, n), Step(t, l, m); (r.Ok? <==> u.Ok?) && (r.Ok? ==> Alike(r.value, u.value))
  {
    hide ParseScalar;
  }

  lemma {:induction false} AlikeRest(st: State, t: State, lines: seq<string>, n: nat, m: nat, i: nat, j: nat)
    requires Alike(st, t)
    ensures Agree(Rest(st, lines, n, i), Rest(t, lines, m, j))
    decreases |lines|
  {
    hide ClassifyLine, Step, Alike;
    if lines == [] {
      AlikeFinish(st, t, i, j);
    } else {
      var l := ClassifyLine(lines[0]);
      AlikeStep(st, t, l, n + 1, m + 1);
      if Step(st, l, n + 1).Ok? {
        AlikeRest(Step(st, l, n + 1).value, Step(t, l, m + 1).value, lines[1..], n + 1, m + 1, i, j);
      }
    }
  }

  lemma AlikeFinish(st: State, t: State, i: nat, j: nat)
    requires Alike(st, t)
    ensures Agree(Finish(st, i), Finish(t, j))
  {}

  lemma ShutStep(st: State, t: State, l: Line, n: nat, m: nat)
    requires Shut(st, t) && !l.FileSha512? && !l.FileSize?
    ensures var r, u := Step(st, l, n), Step(t, l, m);
      (r.Ok? <==> u.Ok?) && (r.Ok? ==> if l.Blank? || l.FilesHeader? then Shut(r.value, u.value) else Alike(r.value, u.value))
  {
    hide ParseScalar;
  }

  lemma ShutFinish(st: State, t: State, i: nat, j: nat)
    requires Shut(st, t)
    ensures Agree(Finish(st, i), Finish(t, j))
  {}

  lemma {:induction false} ShutRest(st: State, t: State, lines: seq<string>, n: nat, m: nat, i: nat, j: nat)
    requires Shut(st, t) && NoLooseField(lines)
    ensures Agree(Rest(st, lines, n, i), Rest(t, lines, m, j))
    decreases |lines|
  {
    hide ClassifyLine, Step, Alike, Shut;
    if lines == [] {
      ShutFinish(st, t, i, j);
    } else {
      var l := ClassifyLine(lines[0]);
      ShutStep(st, t, l, n + 1, m + 1);
      if Step(st, l, n + 1).Ok? {
        var r, u := Step(st, l, n + 1).value, Step(t, l, m + 1).value;
        if l.Blank? || l.FilesHeader? {
          ShutRest(r, u, lines[1..], n + 1, m + 1, i, j);
        } else {
          AlikeRest(r, u, lines[1..], n + 1, m + 1, i, j);
        }
      }
    }
  }

  /** A file that lacks a field and gets none any more is refused. */
  lemma {:induction false} LackingIsRefused(st: State, lines: seq<string>, n: nat, i: nat)
    requires Listed(st) && !Complete(st) && NoLooseField(lines)
    ensures Rest(st, lines, n, i).Err?
    decreases |lines|
  {
    hide ClassifyLine, ParseScalar;
    if lines != [] {
      var l := ClassifyLine(lines[0]);
      if l.Blank? || l.FilesHeader? {
        LackingIsRefused(Step(st, l, n + 1).value, lines[1..], n + 1, i);
      }
    }
  }

  lemma {:induction false} FoldIsListed(st: State, lines: seq<string>, n: nat)
    requires Listed(st) && Fold(st, lines, n).Ok?
    ensures Listed(Fold(st, lines, n).value)
    decreases |lines|
  {
    hide ClassifyLine, Step, Listed;
    if lines != [] {
      StepIsListed(st, ClassifyLine(lines[0]), n + 1);
      FoldIsListed(Step(st, ClassifyLine(lines[0]), n + 1).value, lines[1..], n + 1);
    }
  }

  // Lines that change nothing

  /** The parser passes over the value of these entries. */
  predicate IsIdle(l: Line) {
    l.TopLevel? && (l.key == "path" || l.key == "sha512")
  }

  lemma ParseFrom(a: seq<string>, b: seq<string>)
    ensures ParseLines(a + b) == match Fold(START, a, 0)
      case Err(e) => Err(e)
      case Ok(st) => Rest(st, b, |a|, |a + b|)
  {
    hide Fold;
    FoldAppend(START, a, b, 0);
  }

  lemma ParseAround(a: seq<string>, l: string, b: seq<string>)
    ensures ParseLines(a + [l] + b) == match Fold(START, a, 0)
      case Err(e) => Err(e)
      case Ok(st) =>
        match Step(st, ClassifyLine(l), |a| + 1)
        case Err(e) => Err(e)
        case Ok(st') => Rest(st', b, |a| + 1, |a + [l] + b|)
  {
    hide Fold, Step, ClassifyLine;
    ParseFrom(a + [l], b);
    FoldAppend(START, a, [l], 0);
    if Fold(START, a, 0).Ok? { FoldOne(Fold(START, a, 0).value, l, |a|); }
  }

  /** An entry `path` or `sha512` changes nothing, whatever its value and wherever it stands, unless it
      cuts a file off from its hash or size. */
  lemma IdleEntryIsIgnored(a: seq<string>, l: string, b: seq<string>)
    requires IsIdle(ClassifyLine(l)) && NoLooseField(b)
    ensures Agree(ParseLines(a + [l] + b), ParseLines(a + b))
  {
    hide Fold, ClassifyLine, ParseScalar, NoLooseField, ParseLines, Finish, Rest;
    ParseFrom(a, b);
    ParseAround(a, l, b);
    if Fold(START, a, 0).Ok? {
      var st := Fold(START, a, 0).value;
      FoldIsListed(START, a, 0);
      var n, i, j := |a| + 1, |a + [l] + b|, |a + b|;
      if st.currentFile.None? {
        AlikeRest(st.(inFiles := false), st, b, n, |a|, i, j);
      } else if Complete(st) {
        var t := st.(files := Closed(st), currentFile := None, inFiles := false);
        ShutRest(st, t, b, |a|, n, j, i);
      } else {
        LackingIsRefused(st, b, |a|, j);
      }
    }
  }

  /** Blank lines and the header of the file list change nothing anywhere. */
  lemma EmptyLineIsIgnored(a: seq<string>, l: string, b: seq<string>)
    requires ClassifyLine(l).Blank? || ClassifyLine(l).FilesHeader?
    ensures Agree(ParseLines(a + [l] + b), ParseLines(a + b))
  {
    hide Fold, ClassifyLine, ParseLines, Finish, Rest;
    ParseFrom(a, b);
    ParseAround(a, l, b);
    if Fold(START, a, 0).Ok? {
      var st := Fold(START, a, 0).value;
      FoldIsListed(START, a, 0);
      AlikeRest(if ClassifyLine(l).Blank? then st else st.(inFiles := true), st, b, |a| + 1, |a|, |a + [l] + b|, |a + b|);
    }
  }

  // The grammar of lines

  /** The last hash and the last size ahead of the next url or entry. */
  function Fields(lines: seq<string>): (Option<string>, Option<nat>) {
    if lines == [] then (None, None)
    else
      var (sha512, size) := Fields(lines[1..]);
      match ClassifyLine(lines[0])
      case FileUrl(_) => (None, None)
      case TopLevel(_, _) => (None, None)
      case FileSha512(text) => (if sha512.Some? then sha512 else Some(text), size)
      case FileSize(bytes) => (sha512, if size.Some? then size else Some(bytes))
      case _ => (sha512, size)
  }

  predicate BothFields(fields: (Option<string>, Option<nat>)) {
    fields.0.Some? && fields.1.Some?
  }

  /** One file for each url, with the fields that follow it. */
  function FilesOf(lines: seq<string>): seq<File> {
    if lines == [] then []
    else
      var l, fields := ClassifyLine(lines[0]), Fields(lines[1..]);
      (if l.FileUrl? && BothFields(fields) then [File(l.url, fields.0.value, fields.1.value)] else []) + FilesOf(lines[1..])
  }

  predicate MustBeText(key: string) {
    key == "version" || key == "releaseDate"
  }

  /** Every url is followed by both fields, every field belongs to a url (`open` at the start), and
      version and release date are texts. */
  predicate LinesOk(lines: seq<string>, open: bool) {
    if lines == [] then true
    else
      var rest := lines[1..];
      match ClassifyLine(lines[0])
      case FileUrl(_) => BothFields(Fields(rest)) && LinesOk(rest, true)
      case FileSha512(_) => open && LinesOk(rest, true)
      case FileSize(_) => open && LinesOk(rest, true)
      case TopLevel(key, raw) => (MustBeText(key) ==> ParseScalar(raw).Text?) && LinesOk(rest, false)
      case Unsupported => false
      case _ => LinesOk(rest, open)
  }

  /** The value of the last entry with the key. */
  function LastValue(lines: seq<string>, key: string): Option<Scalar> {
    if lines == [] then None
    else
      var l, later := ClassifyLine(lines[0]), LastValue(lines[1..], key);
      if later.Some? then later else if l.TopLevel? && l.key == key then Some(ParseScalar(l.rawValue)) else None
  }

  function LastText(lines: seq<string>, key: string): Option<string> {
    match LastValue(lines, key)
    case Some(Text(text)) => Some(text)
    case _ => None
  }

  // The state machine follows the grammar

  /** The fields of the open file, later ones over those it has. */
  function OpenFields(st: State, lines: seq<string>): (Option<string>, Option<nat>)
    requires st.currentFile.Some?
  {
    var fields := Fields(lines);
    (OrElse(fields.0, st.currentFile.value.sha512), OrElse(fields.1, st.currentFile.value.size))
  }

  predicate Accepts(st: State, lines: seq<string>) {
    LinesOk(lines, st.currentFile.Some?) && (st.currentFile.Some? ==> BothFields(OpenFields(st, lines)))
  }

  function FilesFrom(st: State, lines: seq<string>): seq<File> {
    st.files
    + (if st.currentFile.Some? && BothFields(OpenFields(st, lines))
       then [File(st.currentFile.value.url, OpenFields(st, lines).0.value, OpenFields(st, lines).1.value)] else [])
    + FilesOf(lines)
  }

  ghost predicate EntriesFrom(st: State, lines: seq<string>, r: State) {
    && r.version == OrElse(LastText(lines, "version"), st.version)
    && r.releaseDate == OrElse(LastText(lines, "releaseDate"), st.releaseDate)
    && (forall key :: (if key in r.extras then Some(r.extras[key]) else None) == ExtraFrom(st, lines, key))
  }

  function ExtraFrom(st: State, lines: seq<string>, key: string): Option<Scalar> {
    var before := if key in st.extras then Some(st.extras[key]) else None;
    if IsReserved(key) then before else OrElse(LastValue(lines, key), before)
  }

  /** Reading one line leads to the same answers about the rest. */
  ghost predicate Follows(st: State, lines: seq<string>, r: Result<State, ParseError>)
    requires lines != []
  {
    && (Accepts(st, lines) <==> r.Ok? && Accepts(r.value, lines[1..]))
    && (Accepts(st, lines) ==> FilesFrom(st, lines) == FilesFrom(r.value, lines[1..]))
  }

  lemma UrlFollows(st: State, lines: seq<string>, n: nat)
    requires Listed(st) && lines != [] && ClassifyLine(lines[0]).FileUrl?
    ensures Follows(st, lines, Step(st, ClassifyLine(lines[0]), n))
  {
    hide ClassifyLine, ParseScalar;
    var url, fields, r := ClassifyLine(lines[0]).url, Fields(lines[1..]), Step(st, ClassifyLine(lines[0]), n);
    assert Fields(lines) == (None, None);
    if r.Ok? && BothFields(fields) {
      var file := File(url, fields.0.value, fields.1.value);
      assert OpenFields(r.value, lines[1..]) == fields;
      Associative3(st.files, r.value.files[|st.files|..], [file], FilesOf(lines[1..]));
    }
  }

  lemma Associative3(a: seq<File>, b: seq<File>, c: seq<File>, d: seq<File>)
    ensures a + b + (c + d) == (a + b) + c + d
  {}

  lemma FieldFollows(st: State, lines: seq<string>, n: nat)
    requires Listed(st) && lines != [] && (ClassifyLine(lines[0]).FileSha512? || ClassifyLine(lines[0]).FileSize?)
    ensures Follows(st, lines, Step(st, ClassifyLine(lines[0]), n))
  {
    hide ClassifyLine, ParseScalar;
    var r := Step(st, ClassifyLine(lines[0]), n);
    assert FilesOf(lines) == FilesOf(lines[1..]);
    if r.Ok? { assert OpenFields(r.value, lines[1..]) == OpenFields(st, lines); }
  }

  lemma EntryFollows(st: State, lines: seq<string>, n: nat)
    requires Listed(st) && lines != [] && (ClassifyLine(lines[0]).TopLevel? || ClassifyLine(lines[0]).Unsupported?)
    ensures Follows(st, lines, Step(st, ClassifyLine(lines[0]), n))
  {
    hide ClassifyLine, ParseScalar;
    assert FilesOf(lines) == FilesOf(lines[1..]);
    assert ClassifyLine(lines[0]).TopLevel? ==> Fields(lines) == (None, None);
  }

  lemma IdleFollows(st: State, lines: seq<string>, n: nat)
    requires Listed(st) && lines != [] && (ClassifyLine(lines[0]).Blank? || ClassifyLine(lines[0]).FilesHeader?)
    ensures Follows(st, lines, Step(st, ClassifyLine(lines[0]), n))
  {
    hide ClassifyLine, ParseScalar;
    assert FilesOf(lines) == FilesOf(lines[1..]) && Fields(lines) == Fields(lines[1..]);
  }

  lemma StepByGrammar(st: State, lines: seq<string>, n: nat)
    requires Listed(st) && lines != []
    ensures Follows(st, lines, Step(st, ClassifyLine(lines[0]), n))
  {
    hide ClassifyLine, Follows, Step;
    match ClassifyLine(lines[0]) {
      case Blank => IdleFollows(st, lines, n);
      case FilesHeader => IdleFollows(st, lines, n);
      case FileUrl(_) => UrlFollows(st, lines, n);
      case FileSha512(_) => FieldFollows(st, lines, n);
      case FileSize(_) => FieldFollows(st, lines, n);
      case TopLevel(_, _) => EntryFollows(st, lines, n);
      case Unsupported => EntryFollows(st, lines, n);
    }
  }

  lemma {:induction false} LastIsText(lines: seq<string>, open: bool, key: string)
    requires LinesOk(lines, open) && MustBeText(key)
    ensures LastValue(lines, key).Some? ==> LastValue(lines, key).value.Text?
  {
    hide ClassifyLine, ParseScalar, Fields, MustBeText;
    if lines != [] {
      var l := ClassifyLine(lines[0]);
      LastIsText(lines[1..], if l.TopLevel? then false else if l.FileUrl? then true else open, key);
    }
  }

  lemma EntriesByGrammar(st: State, lines: seq<string>, n: nat, r: State)
    requires lines != [] && LinesOk(lines, st.currentFile.Some?) && Step(st, ClassifyLine(lines[0]), n).Ok?
    requires EntriesFrom(Step(st, ClassifyLine(lines[0]), n).value, lines[1..], r)
    ensures EntriesFrom(st, lines, r)
  {
    hide ClassifyLine, ParseScalar, Fields, LinesOk;
    var l, next := ClassifyLine(lines[0]), Step(st, ClassifyLine(lines[0]), n).value;
    LastIsText(lines, st.currentFile.Some?, "version");
    LastIsText(lines, st.currentFile.Some?, "releaseDate");
    EntriesStep(st, l, n);
    forall key ensures ExtraFrom(next, lines[1..], key) == ExtraFrom(st, lines, key) {}
  }

  /** What one line writes of version, release date and extras. */
  lemma EntriesStep(st: State, l: Line, n: nat)
    requires Step(st, l, n).Ok?
    ensures var r := Step(st, l, n).value;
      && r.version == (if l.TopLevel? && l.key == "version" then Some(ParseScalar(l.rawValue).text) else st.version)
      && r.releaseDate == (if l.TopLevel? && l.key == "releaseDate" then Some(ParseScalar(l.rawValue).text) else st.releaseDate)
      && r.extras == if l.TopLevel? && !IsReserved(l.key) then st.extras[l.key := ParseScalar(l.rawValue)] else st.extras
  {
    hide ParseScalar;
  }

  lemma {:induction false} FoldByGrammar(st: State, lines: seq<string>, n: nat)
    requires Listed(st)
    ensures var r := Fold(st, lines, n);
      && (Accepts(st, lines) <==> r.Ok? && Complete(r.value))
      && (Accepts(st, lines) ==> Closed(r.value) == FilesFrom(st, lines) && EntriesFrom(st, lines, r.value))
    decreases |lines|
  {
    hide ClassifyLine, Step, EntriesFrom;
    if lines == [] {
      NothingFollows(st);
    } else {
      var r := Step(st, ClassifyLine(lines[0]), n + 1);
      StepByGrammar(st, lines, n + 1);
      if r.Ok? {
        StepIsListed(st, ClassifyLine(lines[0]), n + 1);
        FoldByGrammar(r.value, lines[1..], n + 1);
        if Accepts(st, lines) { EntriesByGrammar(st, lines, n + 1, Fold(r.value, lines[1..], n + 1).value); }
      }
    }
  }

  lemma NothingFollows(st: State)
    requires Listed(st)
    ensures Accepts(st, []) <==> Complete(st)
    ensures Accepts(st, []) ==> Closed(st) == FilesFrom(st, []) && EntriesFrom(st, [], st)
  {
    assert st.files + [] + [] == st.files;
    if st.currentFile.Some? && Complete(st) { assert Closed(st) + [] == Closed(st); }
  }

  /** A text is a manifest exactly when its lines follow the grammar, there is a url, and the last
      version and the last release date are not empty. Then it has these, one file for each url in their
      order, and for every other key but `path` and `sha512` the value of its last entry. */
  lemma ParsedByGrammar(raw: string)
    ensures var lines, r := SplitLines(raw), Parse(raw);
      && (r.Ok? <==>
            && LinesOk(lines, false) && FilesOf(lines) != []
            && LastText(lines, "version") !in {None, Some("")} && LastText(lines, "releaseDate") !in {None, Some("")})
      && (r.Ok? ==>
            && Some(r.value.version) == LastText(lines, "version") && Some(r.value.releaseDate) == LastText(lines, "releaseDate")
            && r.value.files == FilesOf(lines)
            && (forall key :: key in r.value.extras <==> !IsReserved(key) && LastValue(lines, key).Some?)
            && (forall key | key in r.value.extras :: LastValue(lines, key) == Some(r.value.extras[key])))
  {
    hide LinesOk, FilesOf, LastText, LastValue, Fold, SplitLines;
    var lines := SplitLines(raw);
    FoldByGrammar(START, lines, 0);
    assert [] + FilesOf(lines) == FilesOf(lines) && START.files + [] + FilesOf(lines) == FilesOf(lines);
    if Fold(START, lines, 0).Ok? {
      var st := Fold(START, lines, 0).value;
      FoldIsListed(START, lines, 0);
      FinishByGrammar(st, |lines|);
      if Accepts(START, lines) {
        forall key ensures (if key in st.extras then Some(st.extras[key]) else None) ==
                           if IsReserved(key) then None else LastValue(lines, key) {
          assert ExtraFrom(START, lines, key) == if IsReserved(key) then None else LastValue(lines, key);
        }
      }
    }
  }

  lemma FinishByGrammar(st: State, n: nat)
    requires Listed(st)
    ensures var r := Finish(st, n);
      && (r.Ok? <==> Complete(st) && Closed(st) != [] && st.version !in {None, Some("")} && st.releaseDate !in {None, Some("")})
      && (r.Ok? ==> r.value == Manifest(st.version.value, st.releaseDate.value, Closed(st), st.extras))
  {}

  // Errors

  /** What is wrong with the line that an error names. */
  ghost predicate Blames(e: ParseError, l: Line, st: State) {
    match e
    case UnsupportedLine(_) => l.Unsupported? && Complete(st)
    case Sha512WithoutFile(_) => l.FileSha512? && st.currentFile.None?
    case SizeWithoutFile(_) => l.FileSize? && st.currentFile.None?
    case VersionNotText(_) => l.TopLevel? && l.key == "version" && !ParseScalar(l.rawValue).Text? && Complete(st)
    case ReleaseDateNotText(_) => l.TopLevel? && l.key == "releaseDate" && !ParseScalar(l.rawValue).Text? && Complete(st)
    case IncompleteFile(_) => (l.FileUrl? || l.TopLevel? || l.Unsupported?) && !Complete(st)
    case _ => false
  }

  function LineOf(e: ParseError): int {
    match e
    case IncompleteFile(n) => n
    case Sha512WithoutFile(n) => n
    case SizeWithoutFile(n) => n
    case UnsupportedLine(n) => n
    case VersionNotText(n) => n
    case ReleaseDateNotText(n) => n
    case _ => 0
  }

  lemma StepBlames(st: State, l: Line, n: nat)
    requires Listed(st) && Step(st, l, n).Err?
    ensures Blames(Step(st, l, n).error, l, st) && LineOf(Step(st, l, n).error) == n
  {
    hide ParseScalar;
  }

  lemma {:induction false} FoldBlames(st: State, lines: seq<string>, n: nat) returns (k: nat)
    requires Listed(st) && Fold(st, lines, n).Err?
    ensures k < |lines| && Fold(st, lines[..k], n).Ok?
    ensures var e := Fold(st, lines, n).error;
      Blames(e, ClassifyLine(lines[k]), Fold(st, lines[..k], n).value) && LineOf(e) == n + k + 1
    decreases |lines|
  {
    hide ClassifyLine, Step, Blames, Listed;
    var r := Step(st, ClassifyLine(lines[0]), n + 1);
    if r.Err? {
      k := 0;
      assert lines[..0] == [];
      StepBlames(st, ClassifyLine(lines[0]), n + 1);
    } else {
      StepIsListed(st, ClassifyLine(lines[0]), n + 1);
      var j := FoldBlames(r.value, lines[1..], n + 1);
      k := j + 1;
      assert lines[..k][0] == lines[0] && lines[..k][1..] == lines[1..][..j];
    }
  }

  /** A refused text gives the first line that is wrong, and what is wrong with it: unsupported, a field
      without a file, a version or date that is no text, or a file that is left without a field, which may
      be found out at the end only. If no line is wrong, the first that is missing of version, date and
      files, in this order. */
  lemma ErrorSaysWhere(raw: string)
    requires Parse(raw).Err?
    ensures var lines, e := SplitLines(raw), Parse(raw).error;
      match e
      case MissingVersion => LinesOk(lines, false) && LastText(lines, "version") in {None, Some("")}
      case MissingReleaseDate =>
        LinesOk(lines, false) && LastText(lines, "version") !in {None, Some("")} && LastText(lines, "releaseDate") in {None, Some("")}
      case MissingFiles =>
        && LinesOk(lines, false) && FilesOf(lines) == []
        && LastText(lines, "version") !in {None, Some("")} && LastText(lines, "releaseDate") !in {None, Some("")}
      case _ =>
        var k := LineOf(e) - 1;
        && 0 <= k < |lines| && Fold(START, lines[..k], 0).Ok?
        && (|| Blames(e, ClassifyLine(lines[k]), Fold(START, lines[..k], 0).value)
            || (e == IncompleteFile(|lines|) && Fold(START, lines, 0).Ok? && !Complete(Fold(START, lines, 0).value)))
  {
    hide LinesOk, FilesOf, LastText, LastValue, Fold, SplitLines, ClassifyLine, Blames;
    var lines := SplitLines(raw);
    if Fold(START, lines, 0).Err? {
      var k := FoldBlames(START, lines, 0);
    } else {
      var st := Fold(START, lines, 0).value;
      FoldIsListed(START, lines, 0);
      FoldByGrammar(START, lines, 0);
      assert START.files + [] + FilesOf(lines) == FilesOf(lines);
      FinishBlames(st, |lines|);
      FoldFront(START, lines, |lines| - 1, 0);
    }
  }

  lemma FoldFront(st: State, lines: seq<string>, k: nat, n: nat)
    requires k <= |lines| && Fold(st, lines, n).Ok?
    ensures Fold(st, lines[..k], n).Ok?
  {
    hide Fold;
    FoldAppend(st, lines[..k], lines[k..], n);
    assert lines[..k] + lines[k..] == lines;
  }

  lemma FinishBlames(st: State, n: nat)
    requires Listed(st) && Finish(st, n).Err?
    ensures match Finish(st, n).error
      case IncompleteFile(m) => m == n && !Complete(st)
      case MissingVersion => Complete(st) && st.version in {None, Some("")}
      case MissingReleaseDate => Complete(st) && st.version !in {None, Some("")} && st.releaseDate in {None, Some("")}
      case MissingFiles =>
        Complete(st) && st.version !in {None, Some("")} && st.releaseDate !in {None, Some("")} && Closed(st) == []
      case _ => false
  {
    assert st.version.Some? && st.version.value == [] ==> st.version == Some("");
    assert st.releaseDate.Some? && st.releaseDate.value == [] ==> st.releaseDate == Some("");
  }

  // Entries put into a printed manifest

  lemma TrimEndOfSpaced(v: string)
    requires Trim(v) != []
    ensures TrimEnd(v) != []
  {
    hide IsSpace;
    TrimStartSuffix(v);
    TrimEndPrefix(TrimStart(v));
    TrimEndPrefix(v);
    var t, i := Trim(v), |v| - |TrimStart(v)| + |Trim(v)| - 1;
    assert t[|t| - 1] == v[i];
  }

  /** An entry is read as one, with whatever spaces around its value. */
  lemma SpacedEntryLine(key: string, v: string)
    requires IsIdentifier(key) && OneLine(v) && Trim(v) != []
    ensures ClassifyLine(EntryText(key, v)) == TopLevel(key, TrimStart(TrimEnd(v)))
  {
    hide FileUrlLine, FileSha512Line, FileSizeLine, OneLine, IsIdentifier, TrimStart, TrimEnd, Trim, FieldValue, KeyRun;
    TrimEndOfSpaced(v);
    var w := TrimEnd(v);
    var line := EntryText(key, w);
    TrimEndAppend(key + ": ", v);
    assert TrimEnd(EntryText(key, v)) == line;
    NotAnotherLine(key, w);
    var tail := ": " + w;
    assert line == key + tail;
    KeyRunStopsAt(key, tail);
    FieldOfText(v);
    assert line[|key| + 1..] == [' '] + w && line[..|key|] == key;
  }

  lemma KeyRunStopsAt(key: string, tail: string)
    requires IsIdentifier(key) && tail != [] && tail[0] == ':'
    ensures KeyRun(key + tail) == |key| && 0 < |key| && IsLetter((key + tail)[0])
  {
    KeyRunStops(key, tail);
  }

  lemma {:induction false} ExtraLinesAreEntries(keys: seq<string>, extras: map<string, Scalar>)
    requires forall k | k in keys :: k in extras && ReadableExtra(k, extras[k])
    ensures forall l | l in ExtraLines(keys, extras) :: ClassifyLine(l).TopLevel?
  {
    hide EntryText, ScalarText, IsIdentifier, OneLine, ClassifyLine, Trimmed, ParseScalar;
    if keys != [] {
      var k := keys[0];
      assert ReadableExtra(k, extras[k]);
      ScalarShape(extras[k]);
      EntryLine(k, ScalarText(extras[k]));
      ExtraLinesAreEntries(keys[1..], extras);
    }
  }

  lemma {:induction false} FileLinesAt(files: seq<File>, j: nat)
    requires j < |files|
    ensures |FileLines(files)| == 3 * |files| && FileLines(files)[3 * j] == UrlText(files[j].url)
  {
    hide UrlText, Sha512Text, SizeText;
    if j > 0 {
      FileLinesAt(files[1..], j - 1);
    } else if |files| > 1 {
      FileLinesAt(files[1..], 0);
    }
  }

  /** Line `k` of the printed files is the second or third of a file. */
  predicate InsideFile(m: Manifest, k: nat) {
    2 < k < 2 + 3 * |m.files| && (k - 2) % 3 != 0
  }

  lemma FirstDecides(lines: seq<string>, k: nat)
    requires k < |lines|
    ensures var l := ClassifyLine(lines[k]);
      l.FileUrl? || l.TopLevel? || l.Unsupported? ==> NoLooseField(lines[k..])
  {
    hide ClassifyLine;
  }

  lemma TailHasNone(lines: seq<string>, k: nat)
    requires |lines| >= 2 && |lines| - 2 <= k <= |lines| && lines[|lines| - 1] == [] && ClassifyLine(lines[|lines| - 2]).TopLevel?
    ensures NoLooseField(lines[k..])
  {
    hide ClassifyLine;
    BlankLine();
    var n := |lines|;
    assert lines[n..] == [];
    assert lines[n - 1..][1..] == [];
    if k == n - 2 { FirstDecides(lines, k); }
  }

  lemma PrintedHasNone(m: Manifest, k: nat)
    requires Readable(m) && k <= |SerializeLines(m)| && !InsideFile(m, k)
    ensures NoLooseField(SerializeLines(m)[k..])
    decreases k == 1
  {
    hide EntryText, FileLines, ExtraLines, SortedKeys, Quote, OneLine, ClassifyLine, ReadableExtra, NoLooseField, UrlText, Trimmed,
         ParseScalar;
    var lines := SerializeLines(m);
    SortedKeysMembers(m.extras.Keys);
    var files, extraLines := FileLines(m.files), ExtraLines(SortedKeys(m.extras.Keys), m.extras);
    var n := |files|;
    FilesLength(m.files);
    ExtraLinesAreEntries(SortedKeys(m.extras.Keys), m.extras);
    QuotedEntryLine("version", m.version);
    QuotedEntryLine("releaseDate", m.releaseDate);
    if k == 0 {
      FirstDecides(lines, 0);
    } else if k == 1 {
      HeaderIsPassed(lines);
      PrintedHasNone(m, 2);
    } else if k < 2 + n {
      var j := (k - 2) / 3;
      FileLinesAt(m.files, j);
      assert lines[k] == files[k - 2] == UrlText(m.files[j].url);
      assert m.files[j] in m.files;
      UrlLine(m.files[j].url);
      FirstDecides(lines, k);
    } else if k < 2 + n + |extraLines| {
      assert lines[k] == extraLines[k - 2 - n];
      FirstDecides(lines, k);
    } else {
      assert |lines| == 2 + n + |extraLines| + 2;
      assert lines[|lines| - 2] == EntryText("releaseDate", Quote(m.releaseDate));
      TailHasNone(lines, k);
    }
  }

  lemma FilesLength(files: seq<File>)
    ensures |FileLines(files)| == 3 * |files|
  {
    if files != [] { FileLinesAt(files, 0); }
  }

  lemma QuotedEntryLine(key: string, text: string)
    requires MustBeText(key) && OneLine(text)
    ensures ClassifyLine(EntryText(key, Quote(text))) == TopLevel(key, Quote(text))
  {
    hide EntryText, Quote, OneLine, ClassifyLine, Trimmed;
    QuoteShape(text);
    assert IsIdentifier("version") && IsIdentifier("releaseDate");
    EntryLine(key, Quote(text));
  }

  lemma HeaderIsPassed(lines: seq<string>)
    requires |lines| > 1 && lines[1] == FILES_HEADER
    ensures NoLooseField(lines[2..]) ==> NoLooseField(lines[1..])
  {
    hide ClassifyLine;
    HeaderLine();
    assert lines[1..][1..] == lines[2..];
  }

  /** An entry `path` or `sha512` with any value put into a printed manifest, anywhere but inside a file,
      leaves what is parsed as it was. */
  lemma PathIsIgnored(m: Manifest, key: string, v: string, k: nat)
    requires Readable(m) && (key == "path" || key == "sha512") && OneLine(v) && Trim(v) != []
    requires k <= |SerializeLines(m)| && !InsideFile(m, k)
    ensures var lines := SerializeLines(m);
      Agree(Parse(JoinLines(lines[..k] + [EntryText(key, v)] + lines[k..])), Parse(Serialize(m)))
  {
    hide EntryText, SerializeLines, OneLine, ClassifyLine, NoLooseField, ParseLines, Trim, Readable, IsIdentifier, InsideFile;
    var lines, l := SerializeLines(m), EntryText(key, v);
    SerializedLinesAreWhole(m);
    EntryIsWhole(key, v);
    IdleKeys();
    SpacedEntryLine(key, v);
    PrintedHasNone(m, k);
    IdleEntryIsIgnored(lines[..k], l, lines[k..]);
    assert lines[..k] + lines[k..] == lines;
    var all := lines[..k] + [l] + lines[k..];
    SplitJoin(all);
    PrintedIsSome(m);
    SplitJoin(lines);
  }

  lemma IdleKeys()
    ensures IsIdentifier("path") && IsIdentifier("sha512")
  {}

  lemma PrintedIsSome(m: Manifest)
    ensures SerializeLines(m) != []
  {}

  lemma EntryIsWhole(key: string, v: string)
    requires OneLine(v) && (key == "path" || key == "sha512")
    ensures OneLine(EntryText(key, v))
  {
    assert OneLine("path") && OneLine("sha512");
    JoinedOneLine(key, v);
  }

  lemma {:induction false} ExtraLineAt(keys: seq<string>, extras: map<string, Scalar>, i: nat)
    requires (forall k | k in keys :: k in extras) && i < |keys|
    ensures |ExtraLines(keys, extras)| == |keys| && ExtraLines(keys, extras)[i] == keys[i] + ": " + ScalarText(extras[keys[i]])
  {
    hide ScalarText;
    if i > 0 {
      ExtraLineAt(keys[1..], extras, i - 1);
    } else if |keys| > 1 {
      ExtraLineAt(keys[1..], extras, 0);
    }
  }

  lemma {:induction false} FileLinesFrom(files: seq<File>, j: nat)
    requires j < |files|
    ensures var lines, f := FileLines(files), files[j];
      && |lines| == 3 * |files| && lines[3 * j] == "  - url: " + f.url
      && lines[3 * j + 1] == "    sha512: " + f.sha512 && lines[3 * j + 2] == "    size: " + IntText(f.size)
  {
    hide IntText;
    if j > 0 {
      FileLinesFrom(files[1..], j - 1);
    } else {
      FilesLength(files);
      Labels(files[0]);
    }
  }

  lemma Labels(f: File)
    ensures UrlText(f.url) == "  - url: " + f.url && Sha512Text(f.sha512) == "    sha512: " + f.sha512
    ensures SizeText(f.size) == "    size: " + IntText(f.size)
  {
    hide IntText;
    assert URL_FIELD + " " == "  - url: " && SHA512_FIELD + " " == "    sha512: " && SIZE_FIELD + " " == "    size: ";
  }

  /** The printed lines: the version, the header, three lines for file `j` in their order, one for extra
      `i` in the order of the keys, the release date, and an empty last line. */
  lemma PrintedLineByLine(m: Manifest, j: nat, i: nat)
    ensures var lines, f, e := SerializeLines(m), |m.files|, |m.extras|;
      var keys := SortedKeys(m.extras.Keys);
      && |lines| == 2 + 3 * f + e + 2 && |keys| == e
      && lines[0] == "version: " + Quote(m.version) && lines[1] == "files:"
      && lines[|lines| - 2] == "releaseDate: " + Quote(m.releaseDate) && lines[|lines| - 1] == ""
      && (j < f ==>
            && lines[2 + 3 * j] == "  - url: " + m.files[j].url && lines[2 + 3 * j + 1] == "    sha512: " + m.files[j].sha512
            && lines[2 + 3 * j + 2] == "    size: " + IntText(m.files[j].size))
      && (i < e ==> keys[i] in m.extras && lines[2 + 3 * f + i] == keys[i] + ": " + ScalarText(m.extras[keys[i]]))
  {
    hide FileLines, ExtraLines, SortedKeys, Quote, ScalarText, IntText;
    var keys := SortedKeys(m.extras.Keys);
    SortedKeysMembers(m.extras.Keys);
    FilesLength(m.files);
    ExtrasLength(keys, m.extras);
    var head, files, extras := [EntryText("version", Quote(m.version)), FILES_HEADER], FileLines(m.files), ExtraLines(keys, m.extras);
    var tail := [EntryText("releaseDate", Quote(m.releaseDate)), []];
    assert SerializeLines(m) == head + files + extras + tail;
    assert "version" + ": " == "version: " && "releaseDate" + ": " == "releaseDate: ";
    if j < |m.files| { FileLinesFrom(m.files, j); }
    if i < |keys| { ExtraLineAt(keys, m.extras, i); }
  }

  lemma ExtrasLength(keys: seq<string>, extras: map<string, Scalar>)
    requires forall k | k in keys :: k in extras
    ensures |ExtraLines(keys, extras)| == |keys|
  {
    if keys != [] { ExtraLineAt(keys, extras, 0); }
  }
}
