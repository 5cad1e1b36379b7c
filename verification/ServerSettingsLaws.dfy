/** What a sequence of settings updates keeps, and what reading the settings back returns. */
module ServerSettingsLaws {
  import opened Text
  import opened SecretNames
  import opened ServerSettings

  /** How the settings file holds a variable: never the text of a sensitive one. */
  predicate Stored(v: Variable) {
    if v.sensitive then v.value == "" && (v.valueRedacted == None || Redacted(v))
    else v.valueRedacted == None
  }

  predicate AllStored(s: Settings) {
    forall i, k | i in s.instances && 0 <= k < |Environment(s, i)| :: Stored(Environment(s, i)[k])
  }

  /** `x` is a sensitive variable whose value is kept in the secret store. */
  predicate RedactedIn(env: seq<Variable>, x: string) {
    exists k :: 0 <= k < |env| && env[k].sensitive && Redacted(env[k]) && env[k].name == x
  }

  ghost predicate SecretsAreSensitive(s: State) {
    forall i, x | IsSlug(i) && IsVariableName(x) && SecretName(i, x) in s.secrets ::
      RedactedIn(Environment(s.settings, i), x)
  }

  ghost predicate Sound(s: State) {
    Admissible(s.settings) && AllStored(s.settings) && SecretsAreSensitive(s)
  }

  // Runs

  /** No instances yet, and no secret of theirs. */
  ghost predicate Initial(s: State) {
    s.settings.instances == map[] && forall n | n in s.secrets :: !IsProviderSecret(n)
  }

  /** `states` are passed through by submitting `h`. */
  ghost predicate IsRun(h: seq<Settings>, states: seq<State>) {
    && |states| == |h| + 1 && Initial(states[0])
    && (forall k | 0 <= k < |h| :: Admissible(h[k]) && Updates(states[k], h[k], states[k + 1]))
  }

  // Folding an environment

  /** A secret is left only by a variable stored as redacted, or by no variable at all. */
  lemma {:induction false} FoldedSecret(env: seq<Variable>, x: string, secret: Option<string>)
    requires Folded(env, x, secret).Some?
    ensures RedactedIn(PersistEnvironment(env), x) || (secret.Some? && forall k | 0 <= k < |env| :: env[k].name != x)
  {
    if env != [] {
      var n := |env| - 1;
      var stored := PersistEnvironment(env);
      if env[n].name == x {
        assert stored[n].sensitive && Redacted(stored[n]) && stored[n].name == x;
      } else {
        FoldedSecret(env[..n], x, secret);
        var front := PersistEnvironment(env[..n]);
        if k :| 0 <= k < n && front[k].sensitive && Redacted(front[k]) && front[k].name == x {
          assert stored[k] == front[k];
        }
      }
    }
  }

  lemma PersistedEnvironment(s: Settings, i: string)
    ensures Environment(Persisted(s), i) == PersistEnvironment(Environment(s, i))
  {}

  lemma PersistedIsAdmissible(s: Settings)
    requires Admissible(s)
    ensures Admissible(Persisted(s)) && AllStored(Persisted(s))
  {
    hide Environment, IsSlug, IsVariableName;
    forall i | i in Persisted(s).instances
      ensures IsSlug(i) && Named(Environment(Persisted(s), i))
      ensures forall k | 0 <= k < |Environment(Persisted(s), i)| :: Stored(Environment(Persisted(s), i)[k])
    {
      assert i in s.instances;
      PersistedEnvironment(s, i);
    }
  }

  // Every update keeps the state sound

  lemma SecretsStaySensitive(s: State, next: Settings, t: State, i: string, x: string)
    requires Sound(s) && Updates(s, next, t) && IsSlug(i) && IsVariableName(x) && SecretName(i, x) in t.secrets
    ensures RedactedIn(Environment(t.settings, i), x)
  {
    hide SecretName, Environment, Admissible, PlainChars, AllStored, Folded, RedactedIn, Persisted;
    var n := SecretName(i, x);
    var before, env := Environment(s.settings, i), Environment(next, i);
    assert SecretFollows(s, next, t.secrets, i, x);
    assert SecretAfter(s.settings, next, i, x, Lookup(s.secrets, n)).Some?;
    FoldedSecret(env, x, Lookup(s.secrets, n));
    PersistedEnvironment(next, i);
    if n in s.secrets { RedactedIsSensitive(before, x); }
    if k :| 0 <= k < |env| && env[k].sensitive && env[k].name == x {
      assert env[k].name == x;
    }
  }

  lemma RedactedIsSensitive(env: seq<Variable>, x: string)
    requires RedactedIn(env, x)
    ensures SensitiveIn(env, x)
  {}

  /** Whatever is submitted, no sensitive text reaches the settings file and the secret store
      holds entries of currently sensitive variables only. */
  lemma UpdateKeepsSound(s: State, next: Settings, t: State)
    requires Sound(s) && Admissible(next) && Updates(s, next, t)
    ensures Sound(t)
  {
    hide Admissible, AllStored, Environment, Persisted, RedactedIn, SecretName;
    PersistedIsAdmissible(next);
    forall i, x | IsSlug(i) && IsVariableName(x) && SecretName(i, x) in t.secrets
      ensures RedactedIn(Environment(t.settings, i), x)
    {
      SecretsStaySensitive(s, next, t, i, x);
    }
  }

  // Reading the values back

  /** The variable repeats the text it had, whatever that is. */
  predicate Repeats(v: Variable) {
    v.sensitive && Redacted(v)
  }

  /** The text that an environment gives `x`: the last variable of that name that does not repeat its
      text decides, one that is not sensitive with no text. None when all of them repeat it. */
  function Told(env: seq<Variable>, x: string): Option<string> {
    if env == [] then None
    else
      var v := env[|env| - 1];
      if v.name == x && !Repeats(v) then Some(if v.sensitive then v.value else "") else Told(env[..|env| - 1], x)
  }

  /** `Told` without recursion. */
  lemma {:induction false} ToldBy(env: seq<Variable>, x: string, k: nat)
    requires k <= |env| && (k < |env| ==> env[k].name == x && !Repeats(env[k]))
    requires forall j | (if k < |env| then k + 1 else 0) <= j < |env| && env[j].name == x :: Repeats(env[j])
    ensures Told(env, x) ==
            if k == |env| then None else if env[k].sensitive then Some(env[k].value) else Some("")
  {
    var n := |env| - 1;
    if env != [] && k != n {
      assert forall j | 0 <= j < n :: env[..n][j] == env[j];
      ToldBy(env[..n], x, if k < n then k else n);
    }
  }

  /** The text last submitted for the sensitive variable `x` since it became sensitive; submitting
      it as redacted repeats the text before. */
  function LastWritten(h: seq<Settings>, i: string, x: string): string {
    if h == [] || !SensitiveIn(Environment(h[|h| - 1], i), x) then ""
    else
      match Told(Environment(h[|h| - 1], i), x)
      case None => LastWritten(h[..|h| - 1], i, x)
      case Some(text) => text
  }

  /** An empty text is kept as no secret at all. */
  function SecretOf(text: string): Option<string> {
    if text == "" then None else Some(text)
  }

  lemma {:induction false} FoldedTold(env: seq<Variable>, x: string, secret: Option<string>)
    ensures Folded(env, x, secret) == match Told(env, x)
                                      case None => secret
                                      case Some(text) => SecretOf(text)
    ensures Told(env, x).Some? && !SensitiveIn(env, x) ==> Told(env, x) == Some("")
  {
    if env != [] {
      var n := |env| - 1;
      FoldedTold(env[..n], x, secret);
      if SensitiveIn(env[..n], x) {
        var k :| 0 <= k < n && env[..n][k].sensitive && env[..n][k].name == x;
        assert env[k].sensitive && env[k].name == x;
      }
    }
  }

  lemma SecretAfterUpdate(h: seq<Settings>, s: State, next: Settings, i: string, x: string)
    requires Sound(s) && IsSlug(i) && IsVariableName(x)
    requires Lookup(s.secrets, SecretName(i, x)) == SecretOf(LastWritten(h, i, x))
    ensures SecretAfter(s.settings, next, i, x, SecretOf(LastWritten(h, i, x))) == SecretOf(LastWritten(h + [next], i, x))
  {
    hide SecretName, Environment, Admissible, AllStored, Folded, Told, PlainChars, RedactedIn, SensitiveIn;
    var secret := SecretOf(LastWritten(h, i, x));
    assert (h + [next])[..|h|] == h;
    FoldedTold(Environment(next, i), x, secret);
    if secret.Some? {
      RedactedIsSensitive(Environment(s.settings, i), x);
    }
  }

  lemma {:induction false} RunIsSound(h: seq<Settings>, states: seq<State>, m: nat)
    requires IsRun(h, states) && m <= |h|
    ensures Sound(states[m])
  {
    hide Admissible, Initial, IsSlug, IsVariableName, SecretName, Sound, Updates;
    if m == 0 {
      InitialIsSound(states[0]);
    } else {
      RunIsSound(h, states, m - 1);
      UpdateKeepsSound(states[m - 1], h[m - 1], states[m]);
    }
  }

  lemma InitialIsSound(s: State)
    requires Initial(s)
    ensures Sound(s)
    ensures forall i, x | IsSlug(i) && IsVariableName(x) :: SecretName(i, x) !in s.secrets
  {
    hide SecretName, PlainChars;
    forall i, x | IsSlug(i) && IsVariableName(x) ensures SecretName(i, x) !in s.secrets {
      assert IsProviderSecret(SecretName(i, x));
    }
  }

  lemma NothingWritten(i: string, x: string)
    ensures LastWritten([], i, x) == ""
  {}

  lemma {:induction false} RunKeepsSecret(h: seq<Settings>, states: seq<State>, m: nat, i: string, x: string)
    requires IsRun(h, states) && m <= |h| && IsSlug(i) && IsVariableName(x)
    ensures Lookup(states[m].secrets, SecretName(i, x)) == SecretOf(LastWritten(h[..m], i, x))
  {
    hide Environment, Initial, LastWritten, SecretAfter, SecretName, Sound;
    if m == 0 {
      InitialIsSound(states[0]);
      assert h[..0] == [];
      NothingWritten(i, x);
    } else {
      var s, next := states[m - 1], h[m - 1];
      RunKeepsSecret(h, states, m - 1, i, x);
      RunIsSound(h, states, m - 1);
      SecretAfterUpdate(h[..m - 1], s, next, i, x);
      assert h[..m] == h[..m - 1] + [next];
      assert SecretFollows(s, next, states[m].secrets, i, x);
    }
  }

  /** After every run of updates, reading the settings returns every variable of the last submission:
      a plain one as submitted, a sensitive one with the text last written under its name since that
      became sensitive, and none if it came without one. So a submitted text is read back exactly when
      no later variable of the same name gives another. */
  lemma ReadsBack(h: seq<Settings>, states: seq<State>, i: string, k: nat)
    requires IsRun(h, states) && h != []
    requires var env := Environment(h[|h| - 1], i); k < |env|
    requires Admissible(states[|h|].settings)
    ensures var submitted := Environment(h[|h| - 1], i)[k];
            var env := Environment(Materialized(states[|h|].settings, states[|h|].secrets), i);
            && k < |env| && env[k].name == submitted.name && env[k].sensitive == submitted.sensitive
            && env[k].value == (if !submitted.sensitive then submitted.value
                                else if !Redacted(submitted) && submitted.value == "" then ""
                                else LastWritten(h, i, submitted.name))
    ensures var submitted := Environment(h[|h| - 1], i)[k];
            var env := Environment(Materialized(states[|h|].settings, states[|h|].secrets), i);
            submitted.sensitive && !Redacted(submitted) && submitted.value != "" ==>
              (env[k].value == submitted.value
               <==> Told(Environment(h[|h| - 1], i), submitted.name) == Some(submitted.value))
  {
    hide LastWritten, Lookup, MaterializeVariable, Materialized, PersistVariable, Persisted, SecretName, SecretOf, Told;
    var n := |h| - 1;
    var env, s := Environment(h[n], i), states[|h|];
    assert Admissible(h[n]) && Updates(states[n], h[n], s);
    assert s.settings == Persisted(h[n]);
    assert IsSlug(i) && IsVariableName(env[k].name);
    PersistedEnvironment(h[n], i);
    RunKeepsSecret(h, states, |h|, i, env[k].name);
    assert h[..|h|] == h;
    MaterializedEnvironment(s.settings, s.secrets, i);
    ReadsBackOne(h, i, env[k], s.secrets);
    ToldOfWritten(h, i, k);
  }

  /** A variable that gives a text makes its environment give one. */
  lemma ToldOfWritten(h: seq<Settings>, i: string, k: nat)
    requires h != [] && k < |Environment(h[|h| - 1], i)|
    ensures var env := Environment(h[|h| - 1], i);
            env[k].sensitive && !Redacted(env[k]) ==> Told(env, env[k].name) == Some(LastWritten(h, i, env[k].name))
  {
    hide Environment;
    var env := Environment(h[|h| - 1], i);
    if env[k].sensitive && !Redacted(env[k]) { SomethingTold(env, k); }
  }

  lemma {:induction false} SomethingTold(env: seq<Variable>, k: nat)
    requires k < |env| && !Repeats(env[k])
    ensures Told(env, env[k].name).Some?
  {
    var n := |env| - 1;
    if k < n {
      assert env[..n][k] == env[k];
      SomethingTold(env[..n], k);
    }
  }

  /** With distinct names every variable decides for itself. */
  lemma DistinctIsTold(env: seq<Variable>, k: nat)
    requires k < |env| && DistinctNames(env) && env[k].sensitive
    ensures Told(env, env[k].name) == if Redacted(env[k]) then None else Some(env[k].value)
  {
    hide Told;
    ToldBy(env, env[k].name, if Repeats(env[k]) then |env| else k);
  }

  lemma MaterializedEnvironment(s: Settings, secrets: Secrets, i: string)
    requires Admissible(s) && IsSlug(i)
    ensures Named(Environment(s, i))
    ensures Environment(Materialized(s, secrets), i) == MaterializeEnvironment(i, Environment(s, i), secrets)
  {
    hide IsVariableName, MaterializeVariable;
  }

  lemma ReadsBackOne(h: seq<Settings>, i: string, v: Variable, secrets: Secrets)
    requires IsSlug(i) && IsVariableName(v.name)
    requires Lookup(secrets, SecretName(i, v.name)) == SecretOf(LastWritten(h, i, v.name))
    ensures var r := MaterializeVariable(i, PersistVariable(v), secrets);
            && r.name == v.name && r.sensitive == v.sensitive
            && r.value == (if !v.sensitive then v.value
                           else if !Redacted(v) && v.value == "" then ""
                           else LastWritten(h, i, v.name))
  {
    hide SecretName, LastWritten, PlainChars;
  }

  /** All variables named `x` repeat its text, and some do. */
  predicate Keeps(s: Settings, i: string, x: string) {
    SensitiveIn(Environment(s, i), x) && Told(Environment(s, i), x) == None
  }

  predicate Writes(s: Settings, i: string, x: string, text: string) {
    SensitiveIn(Environment(s, i), x) && Told(Environment(s, i), x) == Some(text)
  }

  predicate IsSensitive(s: Settings, i: string, x: string) {
    SensitiveIn(Environment(s, i), x)
  }

  /** `LastWritten` without recursion: the text of the latest submission that wrote one, however
      often it was resubmitted as redacted since; none when only redacted since it became sensitive. */
  lemma {:induction false} LastWrittenIs(h: seq<Settings>, k: nat, i: string, x: string, text: string)
    requires k < |h|
    requires Writes(h[k], i, x, text) || (Keeps(h[k], i, x) && text == "" && (k == 0 || !IsSensitive(h[k - 1], i, x)))
    requires forall j | k < j < |h| :: Keeps(h[j], i, x)
    ensures LastWritten(h, i, x) == text
  {
    hide Environment, Told, SensitiveIn;
    var n := |h| - 1;
    if k < n {
      assert forall j | 0 <= j < n :: h[..n][j] == h[j];
      LastWrittenIs(h[..n], k, i, x, text);
      assert Keeps(h[n], i, x);
    } else if k > 0 {
      assert h[..n][|h[..n]| - 1] == h[k - 1];
    }
  }

  // What the client is shown, sent back

  /** Every secret belongs to a name that only redacted sensitive variables carry. */
  ghost predicate Unambiguous(s: State) {
    forall i, x | IsSlug(i) && IsVariableName(x) && SecretName(i, x) in s.secrets ::
      OnlyRedacted(Environment(s.settings, i), x)
  }

  predicate OnlyRedacted(env: seq<Variable>, x: string) {
    forall k | 0 <= k < |env| && env[k].name == x :: env[k].sensitive && Redacted(env[k])
  }

  lemma {:induction false} FoldedStored(env: seq<Variable>, x: string, secret: Option<string>)
    requires forall k | 0 <= k < |env| :: Stored(env[k])
    ensures Folded(env, x, secret) == (if OnlyRedacted(env, x) then secret else None)
  {
    if env != [] {
      var n := |env| - 1;
      FoldedStored(env[..n], x, secret);
      assert OnlyRedacted(env, x) <==>
          OnlyRedacted(env[..n], x) && (env[n].name == x ==> env[n].sensitive && Redacted(env[n]));
    }
  }

  lemma StoredShown(i: string, v: Variable, secrets: Secrets)
    requires PlainChars(i) && IsVariableName(v.name) && Stored(v)
    ensures Redact(MaterializeVariable(i, v, secrets)) == v && PersistVariable(v) == v
  {
    hide SecretName;
  }

  lemma EnvironmentShown(i: string, env: seq<Variable>, secrets: Secrets)
    requires PlainChars(i) && Named(env) && forall k | 0 <= k < |env| :: Stored(env[k])
    ensures RedactEnvironment(MaterializeEnvironment(i, env, secrets)) == env
    ensures PersistEnvironment(env) == env
  {
    hide SecretName, MaterializeVariable, Redact, PersistVariable, Stored, PlainChars, IsVariableName;
    forall k | 0 <= k < |env|
      ensures RedactEnvironment(MaterializeEnvironment(i, env, secrets))[k] == env[k] == PersistVariable(env[k])
    {
      StoredShown(i, env[k], secrets);
    }
  }

  lemma InstanceShown(s: Settings, secrets: Secrets, i: string)
    requires Admissible(s) && AllStored(s) && i in s.instances
    ensures RedactInstance(MaterializeInstance(i, AdmissibleInstance(s, i), secrets)) == s.instances[i]
    ensures PersistInstance(s.instances[i]) == s.instances[i]
  {
    hide MaterializeEnvironment, RedactEnvironment, PersistEnvironment, PlainChars;
    if s.instances[i].environment.Some? {
      assert Environment(s, i) == s.instances[i].environment.value;
      EnvironmentShown(i, Environment(s, i), secrets);
    }
  }

  /** The client is shown exactly what the settings file holds, and storing that changes nothing. */
  lemma SettingsShown(s: Settings, secrets: Secrets)
    requires Admissible(s) && AllStored(s)
    ensures RedactedForClient(Materialized(s, secrets)) == s && Persisted(s) == s
  {
    hide AdmissibleInstance, MaterializeInstance, RedactInstance, PersistInstance, Admissible, AllStored;
    forall i | i in s.instances
      ensures RedactedForClient(Materialized(s, secrets)).instances[i] == s.instances[i] == Persisted(s).instances[i]
    {
      InstanceShown(s, secrets, i);
    }
    assert RedactedForClient(Materialized(s, secrets)).instances == s.instances;
    assert Persisted(s).instances == s.instances;
  }

  /** Whatever is shown to the client holds no sensitive text, but says where there is one; everything
      else is shown as it is. */
  lemma ClientSeesNoSecret(s: Settings, i: string, k: nat)
    requires i in s.instances && k < |Environment(s, i)|
    ensures var shown := RedactedForClient(s);
      && shown.instances.Keys == s.instances.Keys && shown.rest == s.rest && shown.instances[i].rest == s.instances[i].rest
      && |Environment(shown, i)| == |Environment(s, i)|
      && var v, r := Environment(s, i)[k], Environment(shown, i)[k];
         && r.name == v.name && r.sensitive == v.sensitive
         && (v.sensitive ==> r.value == "" && (Redacted(r) <==> v.value != "" || Redacted(v)))
         && (!v.sensitive ==> r.value == v.value && r.valueRedacted == None)
  {}

  lemma SecretResubmitted(s: State, t: State, i: string, x: string)
    requires Sound(s) && Updates(s, s.settings, t) && IsSlug(i) && IsVariableName(x)
    ensures Lookup(t.secrets, SecretName(i, x)) ==
            (if OnlyRedacted(Environment(s.settings, i), x) then Lookup(s.secrets, SecretName(i, x)) else None)
  {
    hide Folded, Lookup, OnlyRedacted, PlainChars, SecretName;
    FoldedStored(Environment(s.settings, i), x, Lookup(s.secrets, SecretName(i, x)));
    assert SecretFollows(s, s.settings, t.secrets, i, x);
  }

  lemma SecretKept(s: State, t: State, n: string)
    requires Sound(s) && Updates(s, s.settings, t) && Unambiguous(s)
    ensures Lookup(t.secrets, n) == Lookup(s.secrets, n)
  {
    hide Environment, OnlyRedacted, PlainChars, SecretName;
    if IsProviderSecret(n) {
      var i, x :| IsSlug(i) && IsVariableName(x) && n == SecretName(i, x);
      SecretResubmitted(s, t, i, x);
    }
  }

  /** Sending back what the client was shown changes neither the settings nor any secret, exactly
      when no secret shares its name with a variable that is not redacted. */
  lemma ResubmissionIsNoOp(s: State, t: State)
    requires Sound(s) && Updates(s, RedactedForClient(Materialized(s.settings, s.secrets)), t)
    ensures t == s <==> Unambiguous(s)
  {
    hide Admissible, AllStored, Environment, Materialized, OnlyRedacted, Persisted, RedactedForClient,
      SecretName;
    SettingsShown(s.settings, s.secrets);
    assert t.settings == s.settings;
    if Unambiguous(s) {
      forall n ensures Lookup(t.secrets, n) == Lookup(s.secrets, n) { SecretKept(s, t, n); }
      SameLookups(s.secrets, t.secrets);
    } else {
      var i, x :| IsSlug(i) && IsVariableName(x) && SecretName(i, x) in s.secrets &&
        !OnlyRedacted(Environment(s.settings, i), x);
      SecretResubmitted(s, t, i, x);
    }
  }

  lemma SameLookups(a: Secrets, b: Secrets)
    requires forall n :: Lookup(a, n) == Lookup(b, n)
    ensures a == b
  {
    forall n ensures n in a <==> n in b {
      assert Lookup(a, n) == Lookup(b, n);
    }
    forall n | n in a ensures a[n] == b[n] {
      assert Lookup(a, n) == Lookup(b, n);
    }
  }

  lemma DistinctEnvironment(s: Settings, i: string)
    requires Distinct(s)
    ensures DistinctNames(Environment(s, i))
  {}

  /** In particular when no instance names a variable twice. */
  lemma DistinctIsUnambiguous(s: State)
    requires Sound(s) && Distinct(s.settings)
    ensures Unambiguous(s)
  {
    hide Admissible, AllStored, PlainChars, SecretName;
    forall i, x | IsSlug(i) && IsVariableName(x) && SecretName(i, x) in s.secrets
      ensures OnlyRedacted(Environment(s.settings, i), x)
    {
      DistinctEnvironment(s.settings, i);
    }
  }
}
