/** Shortcuts as texts: the parser (`packages/shared/src/keybindings.ts`), the encoder
    (`apps/server/src/keybindings.ts`), and the form of key they agree on. */
module KeybindingParser {
  import opened Text
  import opened Keybindings

  const META := {"cmd", "meta"}
  const CTRL := {"ctrl", "control"}
  const SHIFT := {"shift"}
  const ALT := {"alt", "option"}
  const MOD := {"mod"}

  predicate IsModifier(token: string) {
    token in META || token in CTRL || token in SHIFT || token in ALT || token in MOD
  }

  function NormalizeKeyToken(token: string): string {
    if token == "space" then " " else if token == "esc" then "escape" else token
  }

  // Tokens

  /** `s.split("+")` */
  function Pieces(s: string): (r: seq<string>)
    ensures r != []
  {
    if s == [] then [[]]
    else
      var rest := Pieces(s[1..]);
      if s[0] == '+' then [[]] + rest else [[s[0]] + rest[0]] + rest[1..]
  }

  function TrimAll(tokens: seq<string>): (r: seq<string>)
    ensures |r| == |tokens| && forall i | 0 <= i < |r| :: r[i] == Trim(tokens[i])
  {
    seq(|tokens|, i requires 0 <= i < |tokens| => Trim(tokens[i]))
  }

  function WithoutTrailingEmpty(tokens: seq<string>): (r: seq<string>)
    ensures |r| <= |tokens| && r == tokens[..|r|] && (r != [] ==> r[|r| - 1] != [])
  {
    if tokens != [] && tokens[|tokens| - 1] == [] then WithoutTrailingEmpty(tokens[..|tokens| - 1]) else tokens
  }

  /** Empty tokens at the end stand for the plus key. */
  function ShortcutTokens(lower: string -> string, value: string): seq<string> {
    var raw := TrimAll(Pieces(lower(value)));
    var tokens := WithoutTrailingEmpty(raw);
    if |tokens| < |raw| then tokens + ["+"] else tokens
  }

  function Keys(tokens: seq<string>): seq<string> {
    if tokens == [] then []
    else if IsModifier(tokens[|tokens| - 1]) then Keys(tokens[..|tokens| - 1])
    else Keys(tokens[..|tokens| - 1]) + [tokens[|tokens| - 1]]
  }

  predicate HasWord(tokens: seq<string>, words: set<string>) {
    exists i :: 0 <= i < |tokens| && tokens[i] in words
  }

  function ShortcutOf(key: string, tokens: seq<string>): Shortcut {
    Shortcut(key, HasWord(tokens, META), HasWord(tokens, CTRL), HasWord(tokens, SHIFT), HasWord(tokens, ALT), HasWord(tokens, MOD))
  }

  /** A text is a shortcut when no token is empty and exactly one is not a modifier. */
  function Parse(lower: string -> string, value: string): Option<Shortcut> {
    var tokens := ShortcutTokens(lower, value);
    if [] in tokens || |Keys(tokens)| != 1 then None else Some(ShortcutOf(NormalizeKeyToken(Keys(tokens)[0]), tokens))
  }

  lemma TokensSnoc(tokens: seq<string>, i: nat)
    requires i < |tokens|
    ensures var t := tokens[..i + 1];
            && Keys(t) == (if IsModifier(tokens[i]) then Keys(tokens[..i]) else Keys(tokens[..i]) + [tokens[i]])
            && forall words :: HasWord(t, words) <==> HasWord(tokens[..i], words) || tokens[i] in words
  {
    var t := tokens[..i + 1];
    assert t[..i] == tokens[..i] && t[i] == tokens[i];
    forall words ensures HasWord(t, words) <==> HasWord(tokens[..i], words) || tokens[i] in words {
      if k :| 0 <= k < i && tokens[..i][k] in words { assert t[k] in words; }
      if k :| 0 <= k < |t| && t[k] in words { assert k == i || tokens[..i][k] in words; }
    }
  }

  lemma {:induction false} KeysGrow(tokens: seq<string>, i: nat)
    requires i <= |tokens|
    ensures |Keys(tokens[..i])| <= |Keys(tokens)|
    decreases |tokens|
  {
    if i < |tokens| {
      var n := |tokens| - 1;
      assert tokens[..n][..i] == tokens[..i];
      KeysGrow(tokens[..n], i);
    } else {
      assert tokens[..i] == tokens;
    }
  }

  /** The first part of the parser: the tokens, empty ones at the end popped. */
  method TokenizeShortcut(lower: string -> string, value: string) returns (tokens: seq<string>)
    ensures tokens == ShortcutTokens(lower, value)
  {
    hide Pieces;
    var rawTokens := TrimAll(Pieces(lower(value)));
    tokens := rawTokens;
    var trailingEmptyCount := 0;
    while tokens != [] && tokens[|tokens| - 1] == []
      invariant WithoutTrailingEmpty(tokens) == WithoutTrailingEmpty(rawTokens)
      invariant |tokens| + trailingEmptyCount == |rawTokens|
    {
      trailingEmptyCount := trailingEmptyCount + 1;
      tokens := tokens[..|tokens| - 1];
    }
    if trailingEmptyCount > 0 {
      tokens := tokens + ["+"];
    }
  }

  method ParseKeybindingShortcut(lower: string -> string, value: string) returns (shortcut: Option<Shortcut>)
    ensures shortcut == Parse(lower, value)
  {
    hide HasWord, Keys, IsModifier, ShortcutTokens, NormalizeKeyToken, META, CTRL, SHIFT, ALT, MOD;
    var tokens := TokenizeShortcut(lower, value);
    if [] in tokens {
      return None;
    }
    if tokens == [] {
      NothingNamed();
      return None;
    }
    var key: Option<string> := None;
    var metaKey, ctrlKey, shiftKey, altKey, modKey := false, false, false, false, false;
    NothingNamed();
    assert tokens[..0] == [];
    for i := 0 to |tokens|
      invariant key == None ==> Keys(tokens[..i]) == []
      invariant key != None ==> |Keys(tokens[..i])| == 1 && key == Some(NormalizeKeyToken(Keys(tokens[..i])[0]))
      invariant metaKey == HasWord(tokens[..i], META) && ctrlKey == HasWord(tokens[..i], CTRL)
      invariant shiftKey == HasWord(tokens[..i], SHIFT) && altKey == HasWord(tokens[..i], ALT) && modKey == HasWord(tokens[..i], MOD)
    {
      TokensSnoc(tokens, i);
      ModifierWords(tokens[i]);
      match tokens[i] {
        case "cmd" => metaKey := true;
        case "meta" => metaKey := true;
        case "ctrl" => ctrlKey := true;
        case "control" => ctrlKey := true;
        case "shift" => shiftKey := true;
        case "alt" => altKey := true;
        case "option" => altKey := true;
        case "mod" => modKey := true;
        case token =>
          if key.Some? {
            KeysGrow(tokens, i + 1);
            return None;
          }
          key := Some(NormalizeKeyToken(token));
      }
    }
    assert tokens[..|tokens|] == tokens;
    if key.None? {
      return None;
    }
    return Some(Shortcut(key.value, metaKey, ctrlKey, shiftKey, altKey, modKey));
  }

  lemma NothingNamed()
    ensures Keys([]) == [] && forall words :: !HasWord([], words)
  {}

  lemma ModifierWords(token: string)
    ensures token in META <==> token == "cmd" || token == "meta"
    ensures token in CTRL <==> token == "ctrl" || token == "control"
    ensures token in SHIFT <==> token == "shift"
    ensures token in ALT <==> token == "alt" || token == "option"
    ensures token in MOD <==> token == "mod"
    ensures IsModifier(token) <==>
      || token == "cmd" || token == "meta" || token == "ctrl" || token == "control" || token == "shift"
      || token == "alt" || token == "option" || token == "mod"
  {}

  // The encoder

  function Flag(present: bool, word: string): seq<string> {
    if present then [word] else []
  }

  function Join(tokens: seq<string>): string {
    if tokens == [] then [] else if |tokens| == 1 then tokens[0] else tokens[0] + "+" + Join(tokens[1..])
  }

  function Modifiers(s: Shortcut): seq<string> {
    Flag(s.modKey, "mod") + Flag(s.metaKey, "meta") + Flag(s.ctrlKey, "ctrl") + Flag(s.altKey, "alt") + Flag(s.shiftKey, "shift")
  }

  /** `encodeShortcut` */
  function Encode(s: Shortcut): Option<string> {
    if s.key == [] || (s.key != "+" && '+' in s.key) then None
    else Some(Join(Modifiers(s) + [if s.key == " " then "space" else s.key]))
  }

  function Held(present: bool, text: string): string {
    if present then text else ""
  }

  /** An encoding lists the modifiers in one order, each with a plus sign behind it, and then the key; the
      space bar is spelled out. */
  lemma EncodedInOrder(s: Shortcut)
    requires Encode(s).Some?
    ensures Encode(s).value ==
      Held(s.modKey, "mod+") + (Held(s.metaKey, "meta+") + (Held(s.ctrlKey, "ctrl+") + (Held(s.altKey, "alt+") +
        (Held(s.shiftKey, "shift+") + if s.key == " " then "space" else s.key))))
  {
    hide Join, Flag, Held;
    var key := if s.key == " " then "space" else s.key;
    var t5 := [key];
    var t4 := Flag(s.shiftKey, "shift") + t5;
    var t3 := Flag(s.altKey, "alt") + t4;
    var t2 := Flag(s.ctrlKey, "ctrl") + t3;
    var t1 := Flag(s.metaKey, "meta") + t2;
    Nested(Flag(s.modKey, "mod"), Flag(s.metaKey, "meta"), Flag(s.ctrlKey, "ctrl"), Flag(s.altKey, "alt"),
           Flag(s.shiftKey, "shift"), t5);
    JoinOne(key);
    JoinFlag(s.shiftKey, "shift", "shift+", t5);
    JoinFlag(s.altKey, "alt", "alt+", t4);
    JoinFlag(s.ctrlKey, "ctrl", "ctrl+", t3);
    JoinFlag(s.metaKey, "meta", "meta+", t2);
    JoinFlag(s.modKey, "mod", "mod+", t1);
  }

  lemma Nested(a: seq<string>, b: seq<string>, c: seq<string>, d: seq<string>, e: seq<string>, f: seq<string>)
    ensures a + b + c + d + e + f == a + (b + (c + (d + (e + f))))
  {}

  lemma JoinOne(key: string)
    ensures Join([key]) == key
  {}

  lemma JoinFlag(present: bool, word: string, spelled: string, rest: seq<string>)
    requires rest != [] && spelled == word + "+"
    ensures Join(Flag(present, word) + rest) == Held(present, spelled) + Join(rest) && Flag(present, word) + rest != []
  {
    if present {
      assert ([word] + rest)[1..] == rest;
    } else {
      assert [] + rest == rest;
    }
  }

  // What is taken of `toLowerCase`

  predicate SettledText(lower: string -> string, s: string) {
    forall i | 0 <= i < |s| :: lower([s[i]]) == [s[i]]
  }

  predicate IsLowerAscii(s: string) {
    forall i | 0 <= i < |s| :: s[i] < '\U{0080}' && !('A' <= s[i] <= 'Z')
  }

  /** Lowering a text gives one whose characters are lower-case, and leaves exactly such texts alone;
      of the first 128 characters only the letters `A` to `Z` are not lower-case. */
  ghost predicate FoldsCase(lower: string -> string) {
    && (forall s :: SettledText(lower, lower(s)))
    && (forall s :: lower(s) == s <==> SettledText(lower, s))
    && (forall s | IsLowerAscii(s) :: SettledText(lower, s))
  }

  function LowerChar(c: char): char {
    if 'A' <= c <= 'Z' then 'a' + (c - 'A') else c
  }

  function LowerLetters(s: string): (r: string)
    ensures |r| == |s| && forall i | 0 <= i < |s| :: r[i] == LowerChar(s[i])
  {
    seq(|s|, i requires 0 <= i < |s| => LowerChar(s[i]))
  }

  lemma SettledLetters(s: string)
    ensures SettledText(LowerLetters, s) <==> forall i | 0 <= i < |s| :: LowerChar(s[i]) == s[i]
  {
    hide LowerChar;
    forall i | 0 <= i < |s| ensures LowerLetters([s[i]]) == [s[i]] <==> LowerChar(s[i]) == s[i] {
      assert LowerLetters([s[i]])[0] == LowerChar(s[i]);
    }
  }

  /** Folding the letters `A` to `Z` alone is one such folding. */
  lemma LetterFoldingFolds()
    ensures FoldsCase(LowerLetters)
  {
    hide SettledText;
    forall s ensures SettledText(LowerLetters, LowerLetters(s)) { SettledLetters(LowerLetters(s)); }
    forall s ensures LowerLetters(s) == s <==> SettledText(LowerLetters, s) { SettledLetters(s); }
    forall s | IsLowerAscii(s) ensures SettledText(LowerLetters, s) { SettledLetters(s); }
  }

  /** A key as the parser produces it. */
  predicate Writable(lower: string -> string, key: string) {
    && key != [] && (key == "+" || '+' !in key) && (key == " " || Trimmed(key)) && lower(key) == key
    && !IsModifier(key) && key != "space" && key != "esc"
  }

  // Whatever is parsed is writable

  lemma {:induction false} PiecesHoldNoPlus(lower: string -> string, s: string)
    requires SettledText(lower, s)
    ensures forall i | 0 <= i < |Pieces(s)| :: '+' !in Pieces(s)[i] && SettledText(lower, Pieces(s)[i])
  {
    if s != [] {
      var rest := s[1..];
      assert forall i | 0 <= i < |rest| :: rest[i] == s[i + 1];
      PiecesHoldNoPlus(lower, rest);
      assert s[0] != '+' ==> SettledText(lower, [s[0]] + Pieces(rest)[0]);
    }
  }

  lemma TrimIsPart(lower: string -> string, s: string)
    requires '+' !in s && SettledText(lower, s)
    ensures '+' !in Trim(s) && SettledText(lower, Trim(s)) && Trimmed(Trim(s))
  {
    var t := TrimStart(s);
    TrimIsTrimmed(s);
    TrimStartSuffix(s);
    TrimEndPrefix(t);
    var k := |s| - |t|;
    assert forall i | 0 <= i < |Trim(s)| :: Trim(s)[i] == s[k + i];
  }

  predicate TokenOk(lower: string -> string, token: string) {
    SettledText(lower, token) && Trimmed(token) && (token == "+" || '+' !in token)
  }

  lemma TokensAreOk(lower: string -> string, value: string)
    requires FoldsCase(lower)
    ensures forall i | 0 <= i < |ShortcutTokens(lower, value)| :: TokenOk(lower, ShortcutTokens(lower, value)[i])
  {
    hide Pieces, WithoutTrailingEmpty, SettledText, Trim, Trimmed;
    var pieces := Pieces(lower(value));
    var raw := TrimAll(pieces);
    PiecesHoldNoPlus(lower, lower(value));
    forall i | 0 <= i < |raw| ensures TokenOk(lower, raw[i]) { TrimIsPart(lower, pieces[i]); }
    PlusIsOk(lower);
  }

  lemma PlusIsOk(lower: string -> string)
    requires FoldsCase(lower)
    ensures TokenOk(lower, "+")
  {
    hide SettledText;
    assert IsLowerAscii("+");
  }

  lemma {:induction false} KeysAreTokens(tokens: seq<string>)
    ensures forall key | key in Keys(tokens) :: key in tokens && !IsModifier(key)
  {
    hide IsModifier;
    if tokens != [] { KeysAreTokens(tokens[..|tokens| - 1]); }
  }

  lemma NormalizedIsWritable(lower: string -> string, token: string)
    requires FoldsCase(lower) && token != [] && TokenOk(lower, token) && !IsModifier(token)
    ensures Writable(lower, NormalizeKeyToken(token))
  {
    hide SettledText;
    assert IsLowerAscii(" ") && IsLowerAscii("escape");
    assert !IsModifier("escape") && !IsModifier(" ");
  }

  lemma ParsedIsWritable(lower: string -> string, value: string)
    requires FoldsCase(lower) && Parse(lower, value).Some?
    ensures Writable(lower, Parse(lower, value).value.key)
  {
    hide FoldsCase, ShortcutTokens, Writable, Keys, TokenOk, IsModifier, HasWord, NormalizeKeyToken;
    var tokens := ShortcutTokens(lower, value);
    TokensAreOk(lower, value);
    KeysAreTokens(tokens);
    var key := Keys(tokens)[0];
    assert key in Keys(tokens);
    var i :| 0 <= i < |tokens| && tokens[i] == key;
    NormalizedIsWritable(lower, key);
  }

  // Whatever is writable is read back

  lemma {:induction false} PiecesFirst(a: string, b: string)
    requires '+' !in a
    ensures Pieces(a + "+" + b) == [a] + Pieces(b)
  {
    var s := a + "+" + b;
    if a == [] {
      assert s[1..] == b;
    } else {
      assert a[0] in a;
      assert s[1..] == a[1..] + "+" + b;
      PiecesFirst(a[1..], b);
      assert [a[0]] + a[1..] == a;
    }
  }

  lemma {:induction false} PiecesOnly(a: string)
    requires '+' !in a
    ensures Pieces(a) == [a]
  {
    if a != [] {
      assert a[0] in a;
      PiecesOnly(a[1..]);
      assert [a[0]] + a[1..] == a;
    }
  }

  lemma {:induction false} PiecesOfJoin(tokens: seq<string>)
    requires tokens != [] && forall i | 0 <= i < |tokens| :: '+' !in tokens[i]
    ensures Pieces(Join(tokens)) == tokens
  {
    hide Pieces;
    if |tokens| == 1 {
      PiecesOnly(tokens[0]);
    } else {
      PiecesFirst(tokens[0], Join(tokens[1..]));
      PiecesOfJoin(tokens[1..]);
    }
  }

  lemma {:induction false} PlusIsTwoEmpties(tokens: seq<string>)
    ensures Join(tokens + ["+"]) == Join(tokens + ["", ""])
  {
    if tokens == [] {
      assert ["", ""][1..] == [""];
    } else {
      assert (tokens + ["+"])[1..] == tokens[1..] + ["+"] && (tokens + ["", ""])[1..] == tokens[1..] + ["", ""];
      PlusIsTwoEmpties(tokens[1..]);
    }
  }

  lemma {:induction false} JoinIsSettled(lower: string -> string, tokens: seq<string>)
    requires FoldsCase(lower) && forall i | 0 <= i < |tokens| :: SettledText(lower, tokens[i])
    ensures SettledText(lower, Join(tokens))
  {
    hide FoldsCase;
    if |tokens| > 1 {
      JoinIsSettled(lower, tokens[1..]);
      PlusIsOk(lower);
    }
  }

  /** A token that the encoder writes for a modifier. */
  predicate Written(token: string) {
    token == "mod" || token == "meta" || token == "ctrl" || token == "alt" || token == "shift"
  }

  lemma WrittenIsPlain(token: string)
    requires Written(token)
    ensures IsModifier(token) && token != [] && Trimmed(token) && '+' !in token && IsLowerAscii(token)
  {}

  lemma ModifiersAre(s: Shortcut)
    ensures forall token :: token in Modifiers(s) <==>
              || (token == "mod" && s.modKey) || (token == "meta" && s.metaKey) || (token == "ctrl" && s.ctrlKey)
              || (token == "alt" && s.altKey) || (token == "shift" && s.shiftKey)
  {}

  lemma HasWordIs(tokens: seq<string>, words: set<string>)
    ensures HasWord(tokens, words) <==> exists token :: token in tokens && token in words
  {
    if token :| token in tokens && token in words {
      var i :| 0 <= i < |tokens| && tokens[i] == token;
    }
  }

  lemma ModifiersAreNamed(s: Shortcut, key: string)
    requires !IsModifier(key)
    ensures ShortcutOf(s.key, Modifiers(s) + [key]) == s
  {
    hide Modifiers, HasWord;
    var tokens := Modifiers(s) + [key];
    ModifiersAre(s);
    HasWordIs(tokens, META);
    HasWordIs(tokens, CTRL);
    HasWordIs(tokens, SHIFT);
    HasWordIs(tokens, ALT);
    HasWordIs(tokens, MOD);
  }

  lemma {:induction false} NoKeys(tokens: seq<string>)
    requires forall i | 0 <= i < |tokens| :: IsModifier(tokens[i])
    ensures Keys(tokens) == []
  {
    hide IsModifier;
    if tokens != [] { NoKeys(tokens[..|tokens| - 1]); }
  }

  predicate PlainTokens(lower: string -> string, tokens: seq<string>) {
    forall i | 0 <= i < |tokens| ::
      IsModifier(tokens[i]) && tokens[i] != [] && Trim(tokens[i]) == tokens[i] && '+' !in tokens[i] && SettledText(lower, tokens[i])
  }

  lemma ModifiersArePlain(lower: string -> string, s: Shortcut)
    requires FoldsCase(lower)
    ensures PlainTokens(lower, Modifiers(s))
  {
    hide Modifiers, IsModifier, IsLowerAscii, SettledText, Trim, Trimmed;
    ModifiersAre(s);
    var tokens := Modifiers(s);
    forall i | 0 <= i < |tokens|
      ensures IsModifier(tokens[i]) && tokens[i] != [] && Trim(tokens[i]) == tokens[i] && '+' !in tokens[i]
      ensures SettledText(lower, tokens[i])
    {
      assert tokens[i] in tokens;
      WrittenIsPlain(tokens[i]);
      TrimFixes(tokens[i]);
    }
  }

  lemma PlainAreTrimmed(lower: string -> string, tokens: seq<string>, more: seq<string>)
    requires PlainTokens(lower, tokens) && forall i | 0 <= i < |more| :: Trim(more[i]) == more[i]
    ensures TrimAll(tokens + more) == tokens + more
  {
    hide IsModifier, SettledText, Trim;
    var all := tokens + more;
    forall i | 0 <= i < |all| ensures TrimAll(all)[i] == all[i] {
      if i >= |tokens| { assert all[i] == more[i - |tokens|]; }
    }
  }

  lemma TwoEmptiesGo(lower: string -> string, tokens: seq<string>)
    requires PlainTokens(lower, tokens)
    ensures WithoutTrailingEmpty(tokens + ["", ""]) == tokens
  {
    hide IsModifier, SettledText, Trim;
    var raw, one := tokens + ["", ""], tokens + [""];
    assert raw[..|raw| - 1] == one && one[..|tokens|] == tokens;
    assert WithoutTrailingEmpty(raw) == WithoutTrailingEmpty(one) == WithoutTrailingEmpty(tokens);
  }

  /** What the tokens of an encoded shortcut are read back as. */
  lemma EncodedTokens(lower: string -> string, tokens: seq<string>, key: string)
    requires FoldsCase(lower) && PlainTokens(lower, tokens)
    requires key != [] && Trimmed(key) && (key == "+" || '+' !in key) && SettledText(lower, key)
    ensures ShortcutTokens(lower, Join(tokens + [key])) == tokens + [key]
  {
    hide IsModifier, SettledText, Trim, Trimmed, Pieces, Join, TrimAll, WithoutTrailingEmpty;
    var all := tokens + [key];
    JoinIsSettled(lower, all);
    TrimFixes(key);
    TrimFixes("");
    EmptyIsTrimmed();
    if key == "+" {
      PlusIsTwoEmpties(tokens);
      PiecesOfJoin(tokens + ["", ""]);
      PlainAreTrimmed(lower, tokens, ["", ""]);
      TwoEmptiesGo(lower, tokens);
    } else {
      PiecesOfJoin(all);
      PlainAreTrimmed(lower, tokens, [key]);
      LastIsKept(all);
    }
  }

  lemma EmptyIsTrimmed()
    ensures Trimmed("")
  {}

  lemma LastIsKept(tokens: seq<string>)
    requires tokens != [] && tokens[|tokens| - 1] != []
    ensures WithoutTrailingEmpty(tokens) == tokens
  {}

  lemma WritableReadsBack(lower: string -> string, s: Shortcut)
    requires FoldsCase(lower) && Writable(lower, s.key)
    ensures Encode(s).Some? && Parse(lower, Encode(s).value) == Some(s)
  {
    hide IsModifier, SettledText, Modifiers, ShortcutTokens, ShortcutOf, Join, Trimmed;
    var tokens, key := Modifiers(s), if s.key == " " then "space" else s.key;
    WrittenKey(lower, s.key, key);
    ModifiersArePlain(lower, s);
    EncodedTokens(lower, tokens, key);
    NoKeys(tokens);
    var all := tokens + [key];
    assert all[..|tokens|] == tokens;
    assert Keys(all) == [key];
    ModifiersAreNamed(s, key);
    assert [] !in all;
  }

  /** The key as the encoder writes it. */
  lemma WrittenKey(lower: string -> string, key: string, written: string)
    requires FoldsCase(lower) && Writable(lower, key) && written == if key == " " then "space" else key
    ensures written != [] && Trimmed(written) && (written == "+" || '+' !in written) && SettledText(lower, written)
    ensures !IsModifier(written) && NormalizeKeyToken(written) == key
  {
    hide SettledText;
    assert IsLowerAscii("space");
  }

  /** A shortcut is read back from its encoding exactly when its key is writable, and exactly then
      some text is parsed to it. It has no encoding exactly when its key is empty or holds a plus sign
      among other characters. */
  lemma EncodingReadsBack(lower: string -> string, s: Shortcut)
    requires FoldsCase(lower)
    ensures Encode(s).None? <==> s.key == "" || ('+' in s.key && s.key != "+")
    ensures Encode(s).Some? && Parse(lower, Encode(s).value) == Some(s) <==> Writable(lower, s.key)
    ensures (exists text :: Parse(lower, text) == Some(s)) <==> Writable(lower, s.key)
  {
    hide FoldsCase, Writable, Parse, Encode;
    EncodedUnless(s);
    if Writable(lower, s.key) { WritableReadsBack(lower, s); }
    if text :| Parse(lower, text) == Some(s) { ParsedIsWritable(lower, text); }
  }

  lemma EncodedUnless(s: Shortcut)
    ensures Encode(s).None? <==> s.key == "" || ('+' in s.key && s.key != "+")
  {}

  /** Two texts are the same shortcut exactly when their parses have one encoding, which is how the
      server tells that two rules claim one shortcut. */
  lemma SameShortcut(lower: string -> string, a: string, b: string)
    requires FoldsCase(lower) && Parse(lower, a).Some? && Parse(lower, b).Some?
    ensures Encode(Parse(lower, a).value) == Encode(Parse(lower, b).value) <==> Parse(lower, a) == Parse(lower, b)
  {
    hide FoldsCase, Writable, Parse, Encode;
    EncodingReadsBack(lower, Parse(lower, a).value);
    EncodingReadsBack(lower, Parse(lower, b).value);
    ParsedIsWritable(lower, a);
    ParsedIsWritable(lower, b);
  }

  // Parsed bindings

  /** Events bring their keys into the same form. */
  lemma ParsedKeyIsTyped(setting: Setting, text: string)
    requires FoldsCase(setting.lower) && Parse(setting.lower, text).Some?
    ensures var key := Parse(setting.lower, text).value.key; NormalizeEventKey(setting, key) == key
  {
    hide FoldsCase, Parse, IsModifier;
    ParsedIsWritable(setting.lower, text);
  }

  /** The shortcuts of the bindings come from texts. */
  ghost predicate AllParsed(setting: Setting, bindings: seq<Binding>) {
    forall i | 0 <= i < |bindings| :: IsParsed(setting, bindings[i])
  }

  ghost predicate IsParsed(setting: Setting, b: Binding) {
    exists text :: Parse(setting.lower, text) == Some(b.shortcut)
  }

  /** For parsed bindings the two scans agree: a shortcut that is shown for a command fires the very
      binding it was taken from, and a command has one exactly when some event fires it. */
  lemma ParsedScansAgree(setting: Setting, bindings: seq<Binding>, command: string)
    requires FoldsCase(setting.lower) && AllParsed(setting, bindings)
    ensures forall i | Shown(setting, bindings, command, i) ::
              Resolves(setting, bindings, EventFor(setting, bindings[i].shortcut), i)
    ensures (exists i :: Shown(setting, bindings, command, i)) <==>
            (exists event, i :: Fired(setting, bindings, command, event, i))
  {
    hide FoldsCase, Parse, NormalizeEventKey, EventFor, Resolves, Effective, Fired;
    forall i | 0 <= i < |bindings|
      ensures NormalizeEventKey(setting, bindings[i].shortcut.key) == bindings[i].shortcut.key
    {
      assert IsParsed(setting, bindings[i]);
      var text :| Parse(setting.lower, text) == Some(bindings[i].shortcut);
      ParsedKeyIsTyped(setting, text);
    }
    forall i | Shown(setting, bindings, command, i)
      ensures Resolves(setting, bindings, EventFor(setting, bindings[i].shortcut), i)
    {
      ShownShortcutFires(setting, bindings, command, i);
    }
    ShownExactlyWhenFired(setting, bindings, command);
  }

  /** What the words of a text mean: modifiers by either of their names, in any order and number, and one
      key, of which two are also known by a short name. */
  lemma WordsMean(lower: string -> string, words: seq<string>, key: string)
    requires FoldsCase(lower) && key != [] && Trimmed(key) && '+' !in key && IsLowerAscii(key)
    requires forall i | 0 <= i < |words| ::
               words[i] in {"cmd", "meta", "ctrl", "control", "shift", "alt", "option", "mod"}
    requires key !in {"cmd", "meta", "ctrl", "control", "shift", "alt", "option", "mod"}
    ensures Parse(lower, Join(words + [key])) == Some(Shortcut(
              if key == "esc" then "escape" else if key == "space" then " " else key,
              "cmd" in words || "meta" in words, "ctrl" in words || "control" in words, "shift" in words,
              "alt" in words || "option" in words, "mod" in words))
  {
    hide IsModifier, SettledText, ShortcutTokens, Join, Trimmed, HasWord, Trim, IsLowerAscii, META, CTRL, SHIFT, ALT, MOD;
    forall i | 0 <= i < |words|
      ensures IsModifier(words[i]) && words[i] != [] && Trim(words[i]) == words[i] && '+' !in words[i]
      ensures SettledText(lower, words[i])
    {
      WordIsPlain(lower, words[i]);
    }
    ModifierWords(key);
    EncodedTokens(lower, words, key);
    NoKeys(words);
    var all := words + [key];
    assert all[..|words|] == words;
    assert Keys(all) == [key];
    assert [] !in all;
    WordsHeld(words, key);
  }

  lemma WordShape(word: string)
    requires IsModifier(word)
    ensures word != [] && Trimmed(word) && '+' !in word && IsLowerAscii(word)
  {}

  lemma WordIsPlain(lower: string -> string, word: string)
    requires FoldsCase(lower) && word in {"cmd", "meta", "ctrl", "control", "shift", "alt", "option", "mod"}
    ensures IsModifier(word) && word != [] && Trim(word) == word && '+' !in word && SettledText(lower, word)
  {
    hide SettledText, Trim, Trimmed, IsLowerAscii, IsModifier;
    ModifierWords(word);
    WordShape(word);
    TrimFixes(word);
  }

  lemma WordsHeld(words: seq<string>, key: string)
    requires key !in {"cmd", "meta", "ctrl", "control", "shift", "alt", "option", "mod"}
    ensures var all := words + [key];
      && (HasWord(all, META) <==> "cmd" in words || "meta" in words)
      && (HasWord(all, CTRL) <==> "ctrl" in words || "control" in words)
      && (HasWord(all, SHIFT) <==> "shift" in words)
      && (HasWord(all, ALT) <==> "alt" in words || "option" in words)
      && (HasWord(all, MOD) <==> "mod" in words)
  {
    hide HasWord;
    var all := words + [key];
    HasWordIs(all, META);
    HasWordIs(all, CTRL);
    HasWordIs(all, SHIFT);
    HasWordIs(all, ALT);
    HasWordIs(all, MOD);
    assert forall word :: word in all <==> word in words || word == key;
  }
}
