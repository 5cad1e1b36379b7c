/** Which command a keystroke fires and which shortcut is shown for a command: two backward scans
    over the same bindings (`apps/web/src/keybindings.ts`). */
module Keybindings {
  import opened Text

  datatype Shortcut = Shortcut(key: string, metaKey: bool, ctrlKey: bool, shiftKey: bool, altKey: bool, modKey: bool)

  datatype When = Identifier(name: string) | Not(node: When) | And(left: When, right: When) | Or(left: When, right: When)

  datatype Binding = Binding(command: string, shortcut: Shortcut, whenAst: Option<When>)

  datatype Event = Event(key: string, code: Option<string>, metaKey: bool, ctrlKey: bool, shiftKey: bool, altKey: bool)

  /** The platform, the case folding of `toLowerCase` and the context of a look-up. */
  datatype Setting = Setting(mac: bool, lower: string -> string, context: map<string, bool>)

  // When clauses

  predicate EvaluateWhenNode(node: When, context: map<string, bool>) {
    match node
    case Identifier(name) =>
      if name == "true" then true
      else if name == "false" then false
      else name in context && context[name]
    case Not(inner) => !EvaluateWhenNode(inner, context)
    case And(left, right) => EvaluateWhenNode(left, context) && EvaluateWhenNode(right, context)
    case Or(left, right) => EvaluateWhenNode(left, context) || EvaluateWhenNode(right, context)
  }

  /** The given context over the two flags that default to false. */
  function ResolveContext(context: map<string, bool>): map<string, bool> {
    map["terminalFocus" := false, "terminalOpen" := false] + context
  }

  predicate Active(setting: Setting, b: Binding) {
    b.whenAst.None? || EvaluateWhenNode(b.whenAst.value, ResolveContext(setting.context))
  }

  function Names(node: When): set<string> {
    match node
    case Identifier(name) => {name}
    case Not(inner) => Names(inner)
    case And(left, right) => Names(left) + Names(right)
    case Or(left, right) => Names(left) + Names(right)
  }

  /** A clause depends on the flags it names only, and an absent flag is as good as false. */
  lemma {:induction false} WhenReadsItsNames(node: When, a: map<string, bool>, b: map<string, bool>)
    requires forall name | name in Names(node) :: (name in a && a[name]) == (name in b && b[name])
    ensures EvaluateWhenNode(node, a) == EvaluateWhenNode(node, b)
  {
    match node
    case Identifier(name) => assert name in Names(node);
    case Not(inner) => WhenReadsItsNames(inner, a, b);
    case And(left, right) => WhenReadsItsNames(left, a, b); WhenReadsItsNames(right, a, b);
    case Or(left, right) => WhenReadsItsNames(left, a, b); WhenReadsItsNames(right, a, b);
  }

  /** Clauses obey the laws of logic, whatever the names `true` and `false` are set to in the context. */
  lemma WhenIsLogic(a: When, b: When, context: map<string, bool>)
    ensures EvaluateWhenNode(Identifier("true"), context) && !EvaluateWhenNode(Identifier("false"), context)
    ensures EvaluateWhenNode(And(Identifier("true"), a), context) == EvaluateWhenNode(a, context)
    ensures !EvaluateWhenNode(And(Identifier("false"), a), context)
    ensures EvaluateWhenNode(And(a, b), context) == EvaluateWhenNode(And(b, a), context)
    ensures EvaluateWhenNode(And(a, a), context) == EvaluateWhenNode(a, context)
    ensures EvaluateWhenNode(Not(Not(a)), context) == EvaluateWhenNode(a, context) != EvaluateWhenNode(Not(a), context)
    ensures EvaluateWhenNode(Not(And(a, b)), context) == EvaluateWhenNode(Or(Not(a), Not(b)), context)
  {}

  /** A binding without a clause is always active; one with a clause, exactly when it holds of the given
      context: the flags that default to false are as good as absent. */
  lemma ActiveMeans(setting: Setting, b: Binding, name: string)
    ensures b.whenAst.None? ==> Active(setting, b)
    ensures b.whenAst.Some? ==> Active(setting, b) == EvaluateWhenNode(b.whenAst.value, setting.context)
    ensures name !in {"true", "false"} ==>
      EvaluateWhenNode(Identifier(name), setting.context) == (name in setting.context && setting.context[name])
  {
    if b.whenAst.Some? { WhenReadsItsNames(b.whenAst.value, ResolveContext(setting.context), setting.context); }
  }

  // Keystrokes

  function NormalizeEventKey(setting: Setting, key: string): string {
    if setting.lower(key) == "esc" then "escape" else setting.lower(key)
  }

  /** `EVENT_CODE_KEY_ALIASES` */
  function Aliases(code: string): set<string> {
    if code == "BracketLeft" then {"["}
    else if code == "BracketRight" then {"]"}
    else if |code| == 6 && code[..5] == "Digit" && IsDigit(code[5]) then {code[5..]}
    else {}
  }

  function ResolveEventKeys(setting: Setting, event: Event): set<string> {
    {NormalizeEventKey(setting, event.key)} + match event.code case None => {} case Some(code) => Aliases(code)
  }

  function ExpectedMeta(setting: Setting, s: Shortcut): bool {
    s.metaKey || (s.modKey && setting.mac)
  }

  function ExpectedCtrl(setting: Setting, s: Shortcut): bool {
    s.ctrlKey || (s.modKey && !setting.mac)
  }

  predicate MatchesShortcut(setting: Setting, event: Event, s: Shortcut) {
    && event.metaKey == ExpectedMeta(setting, s) && event.ctrlKey == ExpectedCtrl(setting, s)
    && event.shiftKey == s.shiftKey && event.altKey == s.altKey
    && s.key in ResolveEventKeys(setting, event)
  }

  /** The modifier `mod` is the command key on a Mac and the control key elsewhere; every other modifier
      must be held exactly when the shortcut has it. */
  lemma ModIsThePlatformKey(setting: Setting, event: Event, s: Shortcut)
    ensures MatchesShortcut(setting, event, s) <==>
      && s.key in ResolveEventKeys(setting, event) && event.shiftKey == s.shiftKey && event.altKey == s.altKey
      && (setting.mac ==> event.ctrlKey == s.ctrlKey && event.metaKey == (s.metaKey || s.modKey))
      && (!setting.mac ==> event.metaKey == s.metaKey && event.ctrlKey == (s.ctrlKey || s.modKey))
  {}

  /** An event is for the key it carries in lower case, `escape` for short; digits and brackets are also
      known by the place of their key, whatever the layout prints there. */
  lemma KeysOfEvent(setting: Setting, event: Event, key: string)
    ensures key in ResolveEventKeys(setting, event) <==>
      || (key == setting.lower(event.key) && key != "esc")
      || (key == "escape" && setting.lower(event.key) == "esc")
      || (key == "[" && event.code == Some("BracketLeft")) || (key == "]" && event.code == Some("BracketRight"))
      || (|key| == 1 && IsDigit(key[0]) && event.code == Some("Digit" + key))
  {
    if event.code.Some? {
      var code := event.code.value;
      if |code| == 6 && code[..5] == "Digit" && IsDigit(code[5]) { assert code == "Digit" + code[5..]; }
      if |key| == 1 && IsDigit(key[0]) && code == "Digit" + key { assert code[..5] == "Digit" && code[5..] == key; }
    }
  }

  function Word(present: bool, word: string): string {
    if present then word else ""
  }

  /** `shortcutConflictKey` */
  function ConflictKey(setting: Setting, s: Shortcut): string {
    s.key + "|" + Word(ExpectedMeta(setting, s), "meta") + "|" + Word(ExpectedCtrl(setting, s), "ctrl")
    + "|" + Word(s.shiftKey, "shift") + "|" + Word(s.altKey, "alt")
  }

  /** The same key under the same modifiers. */
  predicate SameKeystroke(setting: Setting, s: Shortcut, t: Shortcut) {
    && s.key == t.key && ExpectedMeta(setting, s) == ExpectedMeta(setting, t) && ExpectedCtrl(setting, s) == ExpectedCtrl(setting, t)
    && s.shiftKey == t.shiftKey && s.altKey == t.altKey
  }

  lemma WordsDiffer(p: bool, q: bool, word: string)
    requires word != [] && '|' !in word
    ensures '|' !in Word(p, word) && (Word(p, word) == Word(q, word) <==> p == q)
  {}

  /** Keys may contain the separator; the four flags after them cannot, so the conflict key still
      tells apart exactly the different keystrokes. */
  lemma ConflictKeyIsKeystroke(setting: Setting, s: Shortcut, t: Shortcut)
    ensures ConflictKey(setting, s) == ConflictKey(setting, t) <==> SameKeystroke(setting, s, t)
  {
    hide Word, ExpectedMeta, ExpectedCtrl;
    WordsDiffer(ExpectedMeta(setting, s), ExpectedMeta(setting, t), "meta");
    WordsDiffer(ExpectedMeta(setting, t), ExpectedMeta(setting, s), "meta");
    WordsDiffer(ExpectedCtrl(setting, s), ExpectedCtrl(setting, t), "ctrl");
    WordsDiffer(ExpectedCtrl(setting, t), ExpectedCtrl(setting, s), "ctrl");
    WordsDiffer(s.shiftKey, t.shiftKey, "shift");
    WordsDiffer(t.shiftKey, s.shiftKey, "shift");
    WordsDiffer(s.altKey, t.altKey, "alt");
    WordsDiffer(t.altKey, s.altKey, "alt");
    if ConflictKey(setting, s) == ConflictKey(setting, t) {
      var m, m' := s.key + "|" + Word(ExpectedMeta(setting, s), "meta"), t.key + "|" + Word(ExpectedMeta(setting, t), "meta");
      var c, c' := m + "|" + Word(ExpectedCtrl(setting, s), "ctrl"), m' + "|" + Word(ExpectedCtrl(setting, t), "ctrl");
      var h, h' := c + "|" + Word(s.shiftKey, "shift"), c' + "|" + Word(t.shiftKey, "shift");
      SplitsLast('|', h, Word(s.altKey, "alt"), h', Word(t.altKey, "alt"));
      SplitsLast('|', c, Word(s.shiftKey, "shift"), c', Word(t.shiftKey, "shift"));
      SplitsLast('|', m, Word(ExpectedCtrl(setting, s), "ctrl"), m', Word(ExpectedCtrl(setting, t), "ctrl"));
      SplitsLast('|', s.key, Word(ExpectedMeta(setting, s), "meta"), t.key, Word(ExpectedMeta(setting, t), "meta"));
    }
  }

  // The two scans

  /** Binding `i` is active and no later active binding takes the same keystroke. */
  ghost predicate Effective(setting: Setting, bindings: seq<Binding>, i: int)
    requires 0 <= i < |bindings|
  {
    Active(setting, bindings[i]) && Unclaimed(setting, bindings, i, i + 1)
  }

  /** No active binding from `from` on takes the keystroke of binding `i`. */
  ghost predicate Unclaimed(setting: Setting, bindings: seq<Binding>, i: int, from: int)
    requires 0 <= i < |bindings| && 0 <= from
  {
    forall j | from <= j < |bindings| && Active(setting, bindings[j]) ::
      !SameKeystroke(setting, bindings[j].shortcut, bindings[i].shortcut)
  }

  ghost predicate Shown(setting: Setting, bindings: seq<Binding>, command: string, i: int) {
    0 <= i < |bindings| && bindings[i].command == command && Effective(setting, bindings, i)
  }

  ghost predicate Fires(setting: Setting, bindings: seq<Binding>, event: Event, i: int) {
    && 0 <= i < |bindings| && Active(setting, bindings[i]) && MatchesShortcut(setting, event, bindings[i].shortcut)
  }

  ghost predicate ClaimedFrom(setting: Setting, bindings: seq<Binding>, from: int, s: Shortcut)
    requires 0 <= from
  {
    exists j :: from <= j < |bindings| && Active(setting, bindings[j]) && SameKeystroke(setting, bindings[j].shortcut, s)
  }

  ghost predicate ClaimedStep(setting: Setting, bindings: seq<Binding>, j: int, s: Shortcut)
    requires 0 <= j < |bindings|
  {
    ClaimedFrom(setting, bindings, j, s) <==>
      ClaimedFrom(setting, bindings, j + 1, s) || (Active(setting, bindings[j]) && SameKeystroke(setting, bindings[j].shortcut, s))
  }

  lemma ClaimedNext(setting: Setting, bindings: seq<Binding>, j: int, s: Shortcut)
    requires 0 <= j < |bindings|
    ensures ClaimedStep(setting, bindings, j, s)
  {}

  lemma ShownIsUnclaimed(setting: Setting, bindings: seq<Binding>, command: string, i: int)
    requires 0 <= i < |bindings|
    ensures Shown(setting, bindings, command, i) <==>
      && bindings[i].command == command && Active(setting, bindings[i])
      && !ClaimedFrom(setting, bindings, i + 1, bindings[i].shortcut)
  {
    hide SameKeystroke;
  }

  /** `findEffectiveShortcutForCommand`: the last binding of the command that nothing later overrides. */
  method FindEffectiveShortcutForCommand(setting: Setting, bindings: seq<Binding>, command: string)
    returns (shortcut: Option<Shortcut>, ghost at: int)
    ensures shortcut.None? ==> forall i :: !Shown(setting, bindings, command, i)
    ensures shortcut.Some? ==> 0 <= at < |bindings| && Shown(setting, bindings, command, at) && shortcut.value == bindings[at].shortcut
    ensures shortcut.Some? ==> forall i | i > at :: !Shown(setting, bindings, command, i)
  {
    hide Active, ConflictKey, EvaluateWhenNode, SameKeystroke;
    var claimed: set<string> := {};
    var index := |bindings| - 1;
    at := -1;
    assert forall s :: !ClaimedFrom(setting, bindings, |bindings|, s);
    assert forall i | i >= |bindings| :: !Shown(setting, bindings, command, i);
    while index >= 0
      invariant -1 <= index < |bindings|
      invariant forall s :: ConflictKey(setting, s) in claimed <==> ClaimedFrom(setting, bindings, index + 1, s)
      invariant forall i | i > index :: !Shown(setting, bindings, command, i)
    {
      var binding := bindings[index];
      index := index - 1;
      ghost var j := index + 1;
      forall s ensures ClaimedStep(setting, bindings, j, s) { ClaimedNext(setting, bindings, j, s); }
      ShownIsUnclaimed(setting, bindings, command, index + 1);
      if !Active(setting, binding) {
        continue;
      }
      var conflictKey := ConflictKey(setting, binding.shortcut);
      forall s ensures ConflictKey(setting, s) == conflictKey <==> SameKeystroke(setting, binding.shortcut, s) {
        ConflictKeyIsKeystroke(setting, binding.shortcut, s);
      }
      if conflictKey in claimed {
        continue;
      }
      claimed := claimed + {conflictKey};
      if binding.command == command {
        at := index + 1;
        return Some(binding.shortcut), at;
      }
    }
    assert forall i | i < 0 :: !Shown(setting, bindings, command, i);
    return None, at;
  }

  /** `resolveShortcutCommand`: the command of the last active binding that the event matches. */
  method ResolveShortcutCommand(setting: Setting, bindings: seq<Binding>, event: Event)
    returns (command: Option<string>, ghost at: int)
    ensures command.None? ==> forall i :: !Fires(setting, bindings, event, i)
    ensures command.Some? ==> Fires(setting, bindings, event, at) && command.value == bindings[at].command
    ensures command.Some? ==> forall i | i > at :: !Fires(setting, bindings, event, i)
  {
    hide EvaluateWhenNode, MatchesShortcut;
    var index := |bindings| - 1;
    at := -1;
    while index >= 0
      invariant -1 <= index < |bindings|
      invariant forall i | i > index :: !Fires(setting, bindings, event, i)
    {
      var binding := bindings[index];
      index := index - 1;
      if !Active(setting, binding) {
        continue;
      }
      if !MatchesShortcut(setting, event, binding.shortcut) {
        continue;
      }
      at := index + 1;
      return Some(binding.command), at;
    }
    return None, at;
  }

  // The scans agree

  /** The keystroke of a shortcut as an event, typed without a code. */
  function EventFor(setting: Setting, s: Shortcut): Event {
    Event(s.key, None, ExpectedMeta(setting, s), ExpectedCtrl(setting, s), s.shiftKey, s.altKey)
  }

  /** The event fires binding `i` and no other. */
  ghost predicate Resolves(setting: Setting, bindings: seq<Binding>, event: Event, i: int) {
    Fires(setting, bindings, event, i) && forall j | j > i :: !Fires(setting, bindings, event, j)
  }

  lemma EventForMatches(setting: Setting, s: Shortcut, t: Shortcut)
    requires NormalizeEventKey(setting, s.key) == s.key
    ensures MatchesShortcut(setting, EventFor(setting, s), t) <==> SameKeystroke(setting, s, t)
  {
    hide NormalizeEventKey;
  }

  /** The shortcut shown for a command fires the very binding it was taken from, exactly when its key
      is in the form that event keys are brought into. */
  lemma ShownShortcutFires(setting: Setting, bindings: seq<Binding>, command: string, i: int)
    requires Shown(setting, bindings, command, i)
    ensures Resolves(setting, bindings, EventFor(setting, bindings[i].shortcut), i) <==>
            NormalizeEventKey(setting, bindings[i].shortcut.key) == bindings[i].shortcut.key
  {
    hide NormalizeEventKey, EvaluateWhenNode;
    var s := bindings[i].shortcut;
    if NormalizeEventKey(setting, s.key) == s.key {
      hide MatchesShortcut, EventFor, ExpectedMeta, ExpectedCtrl;
      forall j | 0 <= j < |bindings|
        ensures MatchesShortcut(setting, EventFor(setting, s), bindings[j].shortcut) <==> SameKeystroke(setting, s, bindings[j].shortcut)
      {
        EventForMatches(setting, s, bindings[j].shortcut);
      }
    }
  }

  /** Whatever an event fires is effective: nothing later takes the same keystroke. */
  lemma FiredIsShown(setting: Setting, bindings: seq<Binding>, event: Event, i: int)
    requires Resolves(setting, bindings, event, i)
    ensures Shown(setting, bindings, bindings[i].command, i)
  {
    hide ResolveEventKeys, EvaluateWhenNode;
    forall j | i < j < |bindings| && Active(setting, bindings[j])
      ensures !SameKeystroke(setting, bindings[j].shortcut, bindings[i].shortcut)
    {
      assert !Fires(setting, bindings, event, j);
    }
  }

  ghost predicate Fired(setting: Setting, bindings: seq<Binding>, command: string, event: Event, i: int) {
    Resolves(setting, bindings, event, i) && bindings[i].command == command
  }

  /** A command has a shortcut to show exactly when some event fires it, provided its keys are in
      the form that event keys are brought into. */
  lemma ShownExactlyWhenFired(setting: Setting, bindings: seq<Binding>, command: string)
    requires forall i | 0 <= i < |bindings| && bindings[i].command == command ::
               NormalizeEventKey(setting, bindings[i].shortcut.key) == bindings[i].shortcut.key
    ensures (exists i :: Shown(setting, bindings, command, i)) <==>
            (exists event, i :: Fired(setting, bindings, command, event, i))
  {
    hide NormalizeEventKey, Effective, Fires, EventFor;
    if i :| Shown(setting, bindings, command, i) {
      ShownShortcutFires(setting, bindings, command, i);
      assert Fired(setting, bindings, command, EventFor(setting, bindings[i].shortcut), i);
    }
    if event, i :| Fired(setting, bindings, command, event, i) {
      FiredIsShown(setting, bindings, event, i);
    }
  }

  /** A binding on the key "esc" is shown but nothing ever fires it: event keys say "escape". */
  lemma EscIsNeverTyped(setting: Setting, event: Event)
    ensures "esc" !in ResolveEventKeys(setting, event)
  {
    if event.code.Some? {
      assert forall alias | alias in Aliases(event.code.value) :: |alias| == 1;
    }
  }
}
