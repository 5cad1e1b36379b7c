/** Exactly which texts are release tags, and of which version: the two patterns read as relations. */
module ReleaseTagPatterns {
  import opened Text
  import opened ReleaseVersions
  import opened ReleaseTags

  /** `\d+` */
  predicate IsNumeral(s: string) {
    s != [] && forall i | 0 <= i < |s| :: '0' <= s[i] <= '9'
  }

  /** `[0-9A-Za-z.-]+` */
  predicate IdentifierText(s: string) {
    s != [] && forall i | 0 <= i < |s| ::
      '0' <= s[i] <= '9' || 'A' <= s[i] <= 'Z' || 'a' <= s[i] <= 'z' || s[i] == '.' || s[i] == '-'
  }

  /** `v(\d+)\.(\d+)\.(\d+)` in front of `rest`. */
  predicate IsCore(tag: string, a: string, b: string, c: string, rest: string) {
    IsNumeral(a) && IsNumeral(b) && IsNumeral(c) && tag == "v" + a + "." + b + "." + c + rest
  }

  predicate NoDigitFirst(s: string) {
    s == [] || !IsDigit(s[0])
  }

  lemma NumeralIsRead(digits: string, rest: string)
    requires IsNumeral(digits) && NoDigitFirst(rest)
    ensures ReadNumber(digits + rest) == Some((NatValue(digits), rest))
  {
    hide NatValue;
    SpanUpTo(IsDigit, digits, rest);
    assert (digits + rest)[..|digits|] == digits;
  }

  lemma ReadIsNumeral(s: string) returns (digits: string)
    requires ReadNumber(s).Some?
    ensures IsNumeral(digits) && s == digits + ReadNumber(s).value.1 && NatValue(digits) == ReadNumber(s).value.0
    ensures NoDigitFirst(ReadNumber(s).value.1)
  {
    hide NatValue;
    SpanIs(IsDigit, s);
    digits := s[..Span(IsDigit, s)];
  }

  lemma CoreIsRead(tag: string, a: string, b: string, c: string, rest: string)
    requires IsCore(tag, a, b, c, rest) && NoDigitFirst(rest)
    ensures ReadCore(tag) == Some(Core(NatValue(a), NatValue(b), NatValue(c), rest))
  {
    hide ReadNumber, ReadText, NatValue;
    var s3 := c + rest;
    var s2 := b + ("." + s3);
    var s1 := a + ("." + s2);
    assert tag == "v" + s1;
    TextReadsBack("v", s1);
    NumeralIsRead(a, "." + s2);
    TextReadsBack(".", s2);
    NumeralIsRead(b, "." + s3);
    TextReadsBack(".", s3);
    NumeralIsRead(c, rest);
  }

  lemma TextIsRead(s: string, text: string)
    requires ReadText(s, text).Some?
    ensures s == text + ReadText(s, text).value
  {}

  lemma ReadIsCore(tag: string) returns (a: string, b: string, c: string)
    requires ReadCore(tag).Some?
    ensures var core := ReadCore(tag).value;
      && IsCore(tag, a, b, c, core.rest) && NoDigitFirst(core.rest)
      && NatValue(a) == core.major && NatValue(b) == core.minor && NatValue(c) == core.patch
  {
    hide ReadNumber, ReadText, NatValue, IsNumeral;
    TextIsRead(tag, "v");
    var s0 := ReadText(tag, "v").value;
    a := ReadIsNumeral(s0);
    var r0 := ReadNumber(s0).value.1;
    TextIsRead(r0, ".");
    var s1 := ReadText(r0, ".").value;
    b := ReadIsNumeral(s1);
    var r1 := ReadNumber(s1).value.1;
    TextIsRead(r1, ".");
    var s2 := ReadText(r1, ".").value;
    c := ReadIsNumeral(s2);
    var rest := ReadCore(tag).value.rest;
    assert tag == "v" + (a + ("." + (b + ("." + (c + rest)))));
  }

  // Stable tags

  /** `(?:-([0-9A-Za-z.-]+))?` with the identifiers it gives. */
  predicate IsPrerelease(s: string, identifiers: seq<string>) {
    if s == [] then identifiers == []
    else s[0] == '-' && IdentifierText(s[1..]) && identifiers == SplitDots(s[1..])
  }

  /** `(?:\+[0-9A-Za-z.-]+)?` */
  predicate IsBuildText(s: string) {
    s == [] || (s[0] == '+' && IdentifierText(s[1..]))
  }

  lemma BuildIs(s: string)
    ensures IsBuild(s) <==> IsBuildText(s)
  {
    if s != [] {
      SpanIs(IsIdentifierChar, s[1..]);
      if IsBuildText(s) {
        SpanUpTo(IsIdentifierChar, s[1..], "");
        assert s[1..] + "" == s[1..];
      }
    }
  }

  lemma PrereleaseIsRead(pre: string, identifiers: seq<string>, build: string)
    requires IsPrerelease(pre, identifiers) && IsBuildText(build)
    ensures ReadPrerelease(pre + build) == Some(identifiers)
  {
    hide SplitDots, IsBuild, Span;
    BuildIs(build);
    var s := pre + build;
    if pre == [] {
      assert s == build;
    } else {
      assert s[1..] == pre[1..] + build;
      SpanUpTo(IsIdentifierChar, pre[1..], build);
      assert s[1..1 + |pre[1..]|] == pre[1..] && s[1 + |pre[1..]|..] == build;
    }
  }

  lemma ReadIsPrerelease(s: string) returns (pre: string, build: string)
    requires ReadPrerelease(s).Some?
    ensures s == pre + build && IsPrerelease(pre, ReadPrerelease(s).value) && IsBuildText(build)
  {
    hide SplitDots, IsBuild;
    if s != [] && s[0] == '-' && Span(IsIdentifierChar, s[1..]) > 0 {
      var n := Span(IsIdentifierChar, s[1..]);
      SpanIs(IsIdentifierChar, s[1..]);
      pre, build := s[..1 + n], s[1 + n..];
      assert pre[1..] == s[1..1 + n];
    } else {
      pre, build := "", s;
    }
    BuildIs(build);
  }

  ghost predicate IsStable(tag: string, v: Stable, a: string, b: string, c: string, pre: string, build: string) {
    && IsCore(tag, a, b, c, pre + build) && v.major == NatValue(a) && v.minor == NatValue(b) && v.patch == NatValue(c)
    && IsPrerelease(pre, v.prerelease) && IsBuildText(build)
    && !(v.prerelease != [] && v.prerelease[0] == "nightly")
  }

  /** A text is the stable tag of a version exactly when it is `v`, three numerals with dots between
      them, a prerelease that does not begin with `nightly`, if any, and a build part, if any. */
  lemma StableTagIs(tag: string, v: Stable)
    ensures ParseStableTag(tag) == Some(v) <==> exists a, b, c, pre, build :: IsStable(tag, v, a, b, c, pre, build)
  {
    hide ReadCore, ReadPrerelease, IsCore, IsPrerelease, IsBuildText, NatValue;
    if ParseStableTag(tag) == Some(v) {
      var a, b, c := ReadIsCore(tag);
      var pre, build := ReadIsPrerelease(ReadCore(tag).value.rest);
      assert IsStable(tag, v, a, b, c, pre, build);
    }
    if a, b, c, pre, build :| IsStable(tag, v, a, b, c, pre, build) {
      PartsStartPlain(pre, v.prerelease, build);
      CoreIsRead(tag, a, b, c, pre + build);
      PrereleaseIsRead(pre, v.prerelease, build);
    }
  }

  lemma PartsStartPlain(pre: string, identifiers: seq<string>, build: string)
    requires IsPrerelease(pre, identifiers) && IsBuildText(build)
    ensures NoDigitFirst(pre + build)
  {}

  // Nightly tags

  ghost predicate IsNightly(tag: string, n: Nightly, a: string, b: string, c: string, date: string, run: string) {
    && tag in {NightlyCore(a, b, c, date, run), "nightly-" + NightlyCore(a, b, c, date, run)}
    && IsNumeral(a) && IsNumeral(b) && IsNumeral(c) && IsNumeral(date) && |date| == 8 && IsNumeral(run)
    && n == Nightly(NatValue(a), NatValue(b), NatValue(c), NatValue(date), NatValue(run))
  }

  function NightlyCore(a: string, b: string, c: string, date: string, run: string): string {
    "v" + a + "." + b + "." + c + ("-nightly." + (date + ("." + run)))
  }

  lemma NightlyIsRead(s: string, a: string, b: string, c: string, date: string, run: string)
    requires s == NightlyCore(a, b, c, date, run)
    requires IsNumeral(a) && IsNumeral(b) && IsNumeral(c) && IsNumeral(date) && |date| == 8 && IsNumeral(run)
    ensures ReadCore(s).Some?
    ensures ReadNightly(ReadCore(s).value) ==
            Some(Nightly(NatValue(a), NatValue(b), NatValue(c), NatValue(date), NatValue(run)))
  {
    hide ReadCore, ReadNumber, NatValue;
    var tail := date + ("." + run);
    var rest := "-nightly." + tail;
    CoreIsRead(s, a, b, c, rest);
    TextReadsBack("-nightly.", tail);
    assert tail[..8] == date && tail[8..] == "." + run;
    TextReadsBack(".", run);
    NumeralIsRead(run, "");
    assert run + "" == run;
  }

  lemma ReadIsNightly(s: string) returns (a: string, b: string, c: string, date: string, run: string)
    requires ReadCore(s).Some? && ReadNightly(ReadCore(s).value).Some?
    ensures s == NightlyCore(a, b, c, date, run)
    ensures IsNumeral(a) && IsNumeral(b) && IsNumeral(c) && IsNumeral(date) && |date| == 8 && IsNumeral(run)
    ensures ReadNightly(ReadCore(s).value).value ==
            Nightly(NatValue(a), NatValue(b), NatValue(c), NatValue(date), NatValue(run))
  {
    hide ReadCore, ReadNumber, NatValue;
    a, b, c := ReadIsCore(s);
    var rest := ReadCore(s).value.rest;
    TextIsRead(rest, "-nightly.");
    var t := ReadText(rest, "-nightly.").value;
    date := t[..8];
    TextIsRead(t[8..], ".");
    var u := ReadText(t[8..], ".").value;
    run := ReadIsNumeral(u);
    assert u == run && t == date + ("." + run);
  }

  function WithoutPrefix(tag: string): string {
    if "nightly-" <= tag then tag[8..] else tag
  }

  lemma PrefixIs(tag: string, core: string)
    requires core != [] && core[0] == 'v'
    ensures WithoutPrefix(tag) == core <==> tag in {core, "nightly-" + core}
  {
    var long := "nightly-" + core;
    assert long[8..] == core && long[..8] == "nightly-";
    if "nightly-" <= tag { assert tag[0] == 'n' && tag == "nightly-" + tag[8..]; }
    assert "nightly-" <= long;
  }

  lemma CoreBeginsWithV(a: string, b: string, c: string, date: string, run: string)
    ensures var core := NightlyCore(a, b, c, date, run); core != [] && core[0] == 'v'
  {}

  /** A text is the tag of a nightly exactly when it is `v`, three numerals with dots between them,
      `-nightly.`, a date of eight digits, a dot and a numeral, with `nightly-` in front or not. */
  lemma NightlyTagIs(tag: string, n: Nightly)
    ensures ParseNightlyTag(tag) == Some(n) <==> exists a, b, c, date, run :: IsNightly(tag, n, a, b, c, date, run)
  {
    hide ReadCore, ReadNightly, NatValue, IsNumeral, NightlyCore;
    var s := WithoutPrefix(tag);
    if ParseNightlyTag(tag) == Some(n) {
      var a, b, c, date, run := ReadIsNightly(s);
      CoreBeginsWithV(a, b, c, date, run);
      PrefixIs(tag, s);
      assert IsNightly(tag, n, a, b, c, date, run);
    }
    if a, b, c, date, run :| IsNightly(tag, n, a, b, c, date, run) {
      var core := NightlyCore(a, b, c, date, run);
      CoreBeginsWithV(a, b, c, date, run);
      PrefixIs(tag, core);
      NightlyIsRead(core, a, b, c, date, run);
    }
  }
}
