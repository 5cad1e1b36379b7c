/** The settings service at work (`apps/server/src/serverSettings.ts`): nested loops over instances
    and variables that change the secret store, proved to take exactly the transition `Updates`. */
module ServerSettingsService {
  import opened Text
  import opened SecretNames
  import opened ServerSettings
  import opened ServerSettingsLaws

  ghost predicate OfInstance(i: string, n: string)
    requires IsSlug(i)
  {
    exists x :: IsVariableName(x) && n == SecretName(i, x)
  }

  // One environment

  ghost predicate FoldedSecrets(before: Secrets, store: Secrets, i: string, env: seq<Variable>)
    requires IsSlug(i)
  {
    forall x | IsVariableName(x) ::
      Lookup(store, SecretName(i, x)) == Folded(env, x, Lookup(before, SecretName(i, x)))
  }

  ghost predicate SameElsewhere(before: Secrets, store: Secrets, i: string)
    requires IsSlug(i)
  {
    forall n | !OfInstance(i, n) :: Lookup(store, n) == Lookup(before, n)
  }

  ghost predicate KeysGrown(before: set<string>, keys: set<string>, i: string, env: seq<Variable>)
    requires IsSlug(i)
  {
    && before <= keys
    && (forall n | n in keys && n !in before :: OfInstance(i, n))
    && (forall x | IsVariableName(x) :: SecretName(i, x) in keys <==> SecretName(i, x) in before || SensitiveIn(env, x))
  }

  function Put(store: Secrets, n: string, secret: Option<string>): Secrets {
    match secret
    case None => store - {n}
    case Some(text) => store[n := text]
  }

  lemma PutLookup(store: Secrets, n: string, secret: Option<string>, m: string)
    ensures Lookup(Put(store, n, secret), m) == if m == n then secret else Lookup(store, m)
  {}

  lemma FoldedNext(before: Secrets, store: Secrets, i: string, env: seq<Variable>, k: nat)
    requires IsSlug(i) && k < |env| && Named(env)
    requires FoldedSecrets(before, store, i, env[..k]) && SameElsewhere(before, store, i)
    ensures var n := SecretName(i, env[k].name);
            var after := Put(store, n, Effect(env[k], Lookup(store, n)));
            FoldedSecrets(before, after, i, env[..k + 1]) && SameElsewhere(before, after, i)
  {
    hide SecretName, Put, Lookup, Effect, PlainChars;
    var v := env[k];
    var n := SecretName(i, v.name);
    var after := Put(store, n, Effect(v, Lookup(store, n)));
    assert env[..k + 1][..k] == env[..k];
    forall x | IsVariableName(x)
      ensures Lookup(after, SecretName(i, x)) == Folded(env[..k + 1], x, Lookup(before, SecretName(i, x)))
    {
      PutLookup(store, n, Effect(v, Lookup(store, n)), SecretName(i, x));
      if SecretName(i, x) == n { SecretNameInjective(i, x, i, v.name); }
    }
    forall m | !OfInstance(i, m) ensures Lookup(after, m) == Lookup(before, m) {
      PutLookup(store, n, Effect(v, Lookup(store, n)), m);
      assert OfInstance(i, n);
    }
  }

  lemma KeysNext(before: set<string>, keys: set<string>, i: string, env: seq<Variable>, k: nat)
    requires IsSlug(i) && k < |env| && Named(env)
    requires KeysGrown(before, keys, i, env[..k])
    ensures KeysGrown(before, if env[k].sensitive then keys + {SecretName(i, env[k].name)} else keys, i, env[..k + 1])
  {
    hide SecretName, PlainChars;
    var v := env[k];
    var n := SecretName(i, v.name);
    var after := if v.sensitive then keys + {n} else keys;
    assert OfInstance(i, n);
    forall x | IsVariableName(x)
      ensures SecretName(i, x) in after <==> SecretName(i, x) in before || SensitiveIn(env[..k + 1], x)
    {
      if SecretName(i, x) == n { SecretNameInjective(i, x, i, v.name); }
      SensitiveNext(env, k, x);
    }
  }

  lemma SensitiveNext(env: seq<Variable>, k: nat, x: string)
    requires k < |env|
    ensures SensitiveIn(env[..k + 1], x) <==> SensitiveIn(env[..k], x) || (env[k].sensitive && env[k].name == x)
  {
    if env[k].sensitive && env[k].name == x { assert env[..k + 1][k] == env[k]; }
    if j :| 0 <= j < k && env[..k][j].sensitive && env[..k][j].name == x { assert env[..k + 1][j] == env[..k][j]; }
    var next := env[..k + 1];
    if j :| 0 <= j < |next| && next[j].sensitive && next[j].name == x {
      if j < k { assert env[..k][j] == next[j]; }
    }
  }

  // All instances

  ghost predicate Settled(before: Secrets, store: Secrets, next: Settings, todo: set<string>) {
    && (forall i, x | IsSlug(i) && IsVariableName(x) :: SettledOne(before, store, next, todo, i, x))
    && (forall n | !IsProviderSecret(n) :: Lookup(store, n) == Lookup(before, n))
  }

  ghost predicate SettledOne(before: Secrets, store: Secrets, next: Settings, todo: set<string>, i: string, x: string)
    requires IsSlug(i) && IsVariableName(x)
  {
    var secret := Lookup(before, SecretName(i, x));
    Lookup(store, SecretName(i, x)) == if i in todo then secret else Folded(Environment(next, i), x, secret)
  }

  ghost predicate KeysSettled(keys: set<string>, next: Settings, todo: set<string>) {
    forall i, x | IsSlug(i) && IsVariableName(x) ::
      SecretName(i, x) in keys <==> i !in todo && SensitiveIn(Environment(next, i), x)
  }

  lemma OtherInstance(i: string, j: string, x: string)
    requires IsSlug(i) && IsSlug(j) && IsVariableName(x) && i != j
    ensures !OfInstance(i, SecretName(j, x))
  {
    hide SecretName, PlainChars;
    if y :| IsVariableName(y) && SecretName(j, x) == SecretName(i, y) {
      SecretNameInjective(j, x, i, y);
    }
  }

  lemma SettledNext(before: Secrets, mid: Secrets, after: Secrets, next: Settings, todo: set<string>, i: string)
    requires IsSlug(i) && i in todo && Settled(before, mid, next, todo)
    requires FoldedSecrets(mid, after, i, Environment(next, i)) && SameElsewhere(mid, after, i)
    ensures Settled(before, after, next, todo - {i})
  {
    hide SecretName, PlainChars, Lookup, Folded, Environment, OfInstance, IsProviderSecret;
    forall j, x | IsSlug(j) && IsVariableName(x) ensures SettledOne(before, after, next, todo - {i}, j, x) {
      assert SettledOne(before, mid, next, todo, j, x);
      if j != i { OtherInstance(i, j, x); }
    }
    forall n | !IsProviderSecret(n) ensures Lookup(after, n) == Lookup(before, n) {
      InstanceSecretIsProvider(i, n);
    }
  }

  lemma InstanceSecretIsProvider(i: string, n: string)
    requires IsSlug(i)
    ensures OfInstance(i, n) ==> IsProviderSecret(n)
  {}

  lemma KeysSettledNext(keys: set<string>, nextKeys: set<string>, next: Settings, todo: set<string>, i: string)
    requires IsSlug(i) && i in todo && KeysSettled(keys, next, todo)
    requires KeysGrown(keys, nextKeys, i, Environment(next, i))
    ensures KeysSettled(nextKeys, next, todo - {i})
  {
    hide SecretName, PlainChars, Environment, OfInstance, SensitiveIn;
    forall j, x | IsSlug(j) && IsVariableName(x)
      ensures SecretName(j, x) in nextKeys <==> j !in todo - {i} && SensitiveIn(Environment(next, j), x)
    {
      if j != i { OtherInstance(i, j, x); }
    }
  }

  lemma SettledStart(before: Secrets, next: Settings)
    ensures Settled(before, before, next, next.instances.Keys) && KeysSettled({}, next, next.instances.Keys)
  {
    hide SecretName, PlainChars, Lookup;
    forall i, x | IsSlug(i) && IsVariableName(x)
      ensures SettledOne(before, before, next, next.instances.Keys, i, x)
      ensures !SensitiveIn(Environment(next, i), x) || i in next.instances.Keys
    {}
  }

  /** An instance without an environment leaves the store alone. */
  lemma NothingToFold(store: Secrets, keys: set<string>, next: Settings, i: string)
    requires IsSlug(i) && i in next.instances && next.instances[i].environment.None?
    ensures FoldedSecrets(store, store, i, Environment(next, i)) && SameElsewhere(store, store, i)
    ensures KeysGrown(keys, keys, i, Environment(next, i))
  {
    StartFolded(store, keys, i);
  }

  // Stale secrets

  ghost predicate StaleRemoved(mid: Secrets, store: Secrets, keys: set<string>, stale: set<string>) {
    forall n :: Lookup(store, n) == if n in stale && n !in keys then None else Lookup(mid, n)
  }

  lemma StaleNext(mid: Secrets, store: Secrets, keys: set<string>, stale: set<string>, n: string)
    requires StaleRemoved(mid, store, keys, stale)
    ensures n in keys ==> StaleRemoved(mid, store, keys, stale + {n})
    ensures n !in keys ==> StaleRemoved(mid, store - {n}, keys, stale + {n})
  {
    hide Lookup;
    forall m ensures Lookup(store - {n}, m) == if m == n then None else Lookup(store, m) { PutLookup(store, n, None, m); }
  }

  ghost predicate OnlyProviderSecrets(names: set<string>) {
    forall n | n in names :: IsProviderSecret(n)
  }

  lemma OnlyProviderSecretsGrow(before: set<string>, names: set<string>, i: string, env: seq<Variable>)
    requires IsSlug(i) && OnlyProviderSecrets(before) && KeysGrown(before, names, i, env)
    ensures OnlyProviderSecrets(names)
  {
    hide SecretName, PlainChars, OfInstance, IsProviderSecret, IsSlug;
    forall n | n in names ensures IsProviderSecret(n) { InstanceSecretIsProvider(i, n); }
  }

  /** Both loops together take the transition. */
  lemma PersistUpdates(s: State, next: Settings, mid: Secrets, keys: set<string>, stale: set<string>, after: Secrets)
    requires Settled(s.secrets, mid, next, {}) && KeysSettled(keys, next, {})
    requires KeysSettled(stale, s.settings, {}) && OnlyProviderSecrets(stale) && StaleRemoved(mid, after, keys, stale)
    ensures Updates(s, next, State(Persisted(next), after))
  {
    hide SecretName, PlainChars, Lookup, Folded, Environment, IsProviderSecret, SensitiveIn, Persisted;
    forall i, x | IsSlug(i) && IsVariableName(x) ensures SecretFollows(s, next, after, i, x) {
      assert SettledOne(s.secrets, mid, next, {}, i, x);
    }
  }

  class SettingsService {
    var settings: Settings
    var secrets: Secrets
    ghost var submitted: seq<Settings>
    ghost var states: seq<State>

    /** The fields are where the run of everything submitted so far has led. */
    ghost predicate Valid()
      reads this
    {
      IsRun(submitted, states) && states[|submitted|] == State(settings, secrets)
    }

    constructor (rest: string, others: Secrets)
      requires forall n | n in others :: !IsProviderSecret(n)
      ensures Valid() && submitted == [] && settings == Settings(map[], rest) && secrets == others
    {
      settings, secrets := Settings(map[], rest), others;
      submitted, states := [], [State(Settings(map[], rest), others)];
    }

    /** `updateSettings`: `next` is what the patch makes of the current settings. */
    method UpdateSettings(next: Settings) returns (materialized: Settings)
      requires Valid() && Admissible(next)
      modifies this
      ensures Valid() && submitted == old(submitted) + [next]
      ensures Sound(State(settings, secrets)) && Updates(old(State(settings, secrets)), next, State(settings, secrets))
      ensures materialized == Materialized(settings, secrets)
    {
      hide Admissible, Materialized, Updates;
      ghost var h, before := submitted, states;
      assert IsRun(h, before) && before[|h|] == State(settings, secrets);
      RunIsSound(h, before, |h|);
      assert Admissible(settings);
      var stored := Persist(settings, next);
      submitted, states := h + [next], before + [State(stored, secrets)];
      settings := stored;
      RunExtends(h, before, next, State(settings, secrets));
      UpdateKeepsSound(before[|h|], next, State(settings, secrets));
      materialized := Materialize(settings);
    }

    /** `getSettings` */
    method GetSettings() returns (materialized: Settings)
      requires Valid()
      ensures Sound(State(settings, secrets)) && materialized == Materialized(settings, secrets)
    {
      hide Admissible, Materialized;
      RunIsSound(submitted, states, |submitted|);
      materialized := Materialize(settings);
    }

    /** The inner loop of `persistProviderEnvironmentSecrets`. */
    method PersistVariables(i: string, env: seq<Variable>, keys: set<string>)
      returns (stored: seq<Variable>, nextKeys: set<string>)
      requires IsSlug(i) && Named(env)
      modifies this`secrets
      ensures stored == PersistEnvironment(env)
      ensures FoldedSecrets(old(secrets), secrets, i, env) && SameElsewhere(old(secrets), secrets, i)
      ensures KeysGrown(keys, nextKeys, i, env)
    {
      hide Folded, FoldedSecrets, KeysGrown, PlainChars, SameElsewhere, SecretName;
      stored, nextKeys := [], keys;
      StartFolded(secrets, keys, i);
      ghost var before := secrets;
      var k := 0;
      assert env[..k] == [];
      while k < |env|
        invariant 0 <= k <= |env| && |stored| == k
        invariant forall j | 0 <= j < k :: stored[j] == PersistVariable(env[j])
        invariant FoldedSecrets(before, secrets, i, env[..k]) && SameElsewhere(before, secrets, i)
        invariant KeysGrown(keys, nextKeys, i, env[..k])
      {
        var v := env[k];
        assert IsVariableName(v.name) && PlainChars(i) && PlainChars(v.name);
        var n := SecretName(i, v.name);
        FoldedNext(before, secrets, i, env, k);
        KeysNext(keys, nextKeys, i, env, k);
        if !v.sensitive {
          secrets := secrets - {n};
          stored := stored + [Redact(v)];
        } else {
          nextKeys := nextKeys + {n};
          if !Redacted(v) {
            if |v.value| > 0 {
              secrets := secrets[n := v.value];
              stored := stored + [v.(value := "", valueRedacted := Some(true))];
            } else {
              secrets := secrets - {n};
              stored := stored + [v.(valueRedacted := None)];
            }
          } else {
            KeptPut(secrets, n);
            stored := stored + [Redact(v)];
          }
        }
        k := k + 1;
      }
      assert env[..k] == env;
    }

    /** The first outer loop: every instance of `next`, in whatever order. */
    method PersistInstances(next: Settings) returns (instances: map<string, Instance>, keys: set<string>)
      requires Admissible(next)
      modifies this`secrets
      ensures instances == Persisted(next).instances
      ensures Settled(old(secrets), secrets, next, {}) && KeysSettled(keys, next, {})
    {
      hide Admissible, Environment, FoldedSecrets, IsSlug, KeysGrown, KeysSettled, Named, PersistEnvironment,
        SameElsewhere, Settled;
      ghost var before := secrets;
      instances, keys := next.instances, {};
      var todo := next.instances.Keys;
      SettledStart(secrets, next);
      while todo != {}
        invariant todo <= next.instances.Keys && instances.Keys == next.instances.Keys
        invariant forall i | i in next.instances ::
            instances[i] == if i in todo then next.instances[i] else PersistInstance(next.instances[i])
        invariant Settled(before, secrets, next, todo) && KeysSettled(keys, next, todo)
        decreases |todo|
      {
        var i :| i in todo;
        var instance := next.instances[i];
        AdmissibleEnvironment(next, i);
        ghost var mid, grown := secrets, keys;
        if instance.environment.Some? {
          var stored;
          stored, keys := PersistVariables(i, instance.environment.value, keys);
          instances := instances[i := instance.(environment := Some(stored))];
        } else {
          NothingToFold(secrets, keys, next, i);
        }
        SettledNext(before, mid, secrets, next, todo, i);
        KeysSettledNext(grown, keys, next, todo, i);
        todo := todo - {i};
      }
    }

    /** One environment of the loop that removes stale secrets. */
    method RemoveStaleVariables(i: string, env: seq<Variable>, keys: set<string>, ghost mid: Secrets,
                                ghost stale: set<string>)
      returns (ghost grown: set<string>)
      requires IsSlug(i) && Named(env) && StaleRemoved(mid, secrets, keys, stale)
      modifies this`secrets
      ensures StaleRemoved(mid, secrets, keys, grown) && KeysGrown(stale, grown, i, env)
    {
      hide FoldedSecrets, KeysGrown, PlainChars, SameElsewhere, SecretName, StaleRemoved;
      grown := stale;
      StartFolded(secrets, stale, i);
      var k := 0;
      assert env[..k] == [];
      while k < |env|
        invariant 0 <= k <= |env|
        invariant StaleRemoved(mid, secrets, keys, grown) && KeysGrown(stale, grown, i, env[..k])
      {
        var v := env[k];
        assert PlainChars(v.name);
        KeysNext(stale, grown, i, env, k);
        if v.sensitive {
          var n := SecretName(i, v.name);
          StaleNext(mid, secrets, keys, grown, n);
          grown := grown + {n};
          if n !in keys {
            secrets := secrets - {n};
          }
        }
        k := k + 1;
      }
      assert env[..k] == env;
    }

    /** The second outer loop: secrets of variables that are sensitive no longer. */
    method RemoveStale(current: Settings, keys: set<string>) returns (ghost stale: set<string>)
      requires Admissible(current)
      modifies this`secrets
      ensures StaleRemoved(old(secrets), secrets, keys, stale)
      ensures KeysSettled(stale, current, {}) && OnlyProviderSecrets(stale)
    {
      hide Admissible, Environment, IsSlug, KeysGrown, KeysSettled, Named, Settled;
      ghost var mid := secrets;
      stale := {};
      var todo := current.instances.Keys;
      SettledStart(secrets, current);
      assert StaleRemoved(mid, secrets, keys, {});
      assert OnlyProviderSecrets({});
      while todo != {}
        invariant todo <= current.instances.Keys
        invariant StaleRemoved(mid, secrets, keys, stale)
        invariant KeysSettled(stale, current, todo) && OnlyProviderSecrets(stale)
        decreases |todo|
      {
        var i :| i in todo;
        AdmissibleEnvironment(current, i);
        ghost var grown := RemoveStaleVariables(i, Environment(current, i), keys, mid, stale);
        KeysSettledNext(stale, grown, current, todo, i);
        OnlyProviderSecretsGrow(stale, grown, i, Environment(current, i));
        stale := grown;
        todo := todo - {i};
      }
    }

    /** `persistProviderEnvironmentSecrets` */
    method Persist(current: Settings, next: Settings) returns (stored: Settings)
      requires Admissible(current) && Admissible(next)
      modifies this`secrets
      ensures Updates(State(current, old(secrets)), next, State(stored, secrets))
    {
      hide Admissible, KeysSettled, OnlyProviderSecrets, Settled, StaleRemoved, Updates;
      ghost var s := State(current, secrets);
      var instances, keys := PersistInstances(next);
      ghost var mid := secrets;
      ghost var stale := RemoveStale(current, keys);
      PersistUpdates(s, next, mid, keys, stale, secrets);
      stored := next.(instances := instances);
      assert stored == Persisted(next);
    }

    /** One environment of `materializeProviderEnvironmentSecrets`. */
    method MaterializeVariables(i: string, env: seq<Variable>) returns (environment: seq<Variable>)
      requires IsSlug(i) && Named(env)
      ensures environment == MaterializeEnvironment(i, env, secrets)
    {
      hide SecretName;
      environment := [];
      var k := 0;
      while k < |env|
        invariant 0 <= k <= |env| && |environment| == k
        invariant forall j | 0 <= j < k :: environment[j] == MaterializeVariable(i, env[j], secrets)
      {
        var v := env[k];
        if !v.sensitive || !Redacted(v) {
          environment := environment + [v];
        } else {
          var n := SecretName(i, v.name);
          environment := environment + [v.(value := if n in secrets then secrets[n] else "")];
        }
        k := k + 1;
      }
    }

    /** `materializeProviderEnvironmentSecrets` */
    method Materialize(s: Settings) returns (materialized: Settings)
      requires Admissible(s)
      ensures materialized == Materialized(s, secrets)
    {
      hide Admissible, Environment, IsSlug, MaterializeEnvironment, Named;
      var instances := s.instances;
      var todo := s.instances.Keys;
      while todo != {}
        invariant todo <= s.instances.Keys && instances.Keys == s.instances.Keys
        invariant forall i | i in s.instances ::
            instances[i] == if i in todo then s.instances[i] else MaterializeInstance(i, AdmissibleInstance(s, i), secrets)
        decreases |todo|
      {
        var i :| i in todo;
        var instance := s.instances[i];
        AdmissibleEnvironment(s, i);
        if instance.environment.Some? {
          var environment := MaterializeVariables(i, instance.environment.value);
          instances := instances[i := instance.(environment := Some(environment))];
        }
        todo := todo - {i};
      }
      materialized := s.(instances := instances);
    }
  }

  // A secret lost

  const TWINS := [Variable("X", "", false, None), Variable("X", "secret", true, None)]
  const WITH_TWINS := Settings(map["a" := Instance(Some(TWINS), "")], "")

  lemma TwinsTold()
    ensures Admissible(WITH_TWINS)
    ensures Environment(WITH_TWINS, "a") == TWINS && |Environment(Persisted(WITH_TWINS), "a")| == 2
    ensures LastWritten([WITH_TWINS], "a", "X") == "secret"
    ensures LastWritten([WITH_TWINS, Persisted(WITH_TWINS)], "a", "X") == ""
    ensures Environment(Persisted(WITH_TWINS), "a")[1] == Variable("X", "", true, Some(true))
  {
    var stored := Environment(Persisted(WITH_TWINS), "a");
    assert stored == [Variable("X", "", false, None), Variable("X", "", true, Some(true))];
    assert TWINS[1].sensitive && stored[1].sensitive;
    ToldBy(TWINS, "X", 1);
    ToldBy(stored, "X", 0);
  }

  /** An instance names a variable twice, plain and sensitive. Its secret is there after the update,
      and lost once the settings are sent back as the client is shown them. */
  method TwinLosesSecret() returns (before: Settings, after: Settings)
    ensures var env := Environment(before, "a"); |env| > 1 && env[1].name == "X" && env[1].value == "secret"
    ensures var env := Environment(after, "a"); |env| > 1 && env[1].name == "X" && env[1].value == ""
  {
    hide Materialized, Updates, IsRun, SecretName, RedactedForClient, Admissible, AllStored, LastWritten, Persisted;
    var service := new SettingsService("", map[]);
    TwinsTold();
    before := service.UpdateSettings(WITH_TWINS);
    assert service.submitted == [WITH_TWINS];
    Submitted(service.submitted, service.states);
    ReadsBack([WITH_TWINS], service.states, "a", 1);
    SettingsShown(service.settings, service.secrets);
    var shown := RedactedForClient(before);
    after := service.UpdateSettings(shown);
    Submitted(service.submitted, service.states);
    assert service.submitted == [WITH_TWINS, shown];
    ReadsBack([WITH_TWINS, shown], service.states, "a", 1);
  }

  /** The settings stored last are those submitted last, redacted. */
  lemma Submitted(h: seq<Settings>, states: seq<State>)
    requires IsRun(h, states) && h != []
    ensures states[|h|].settings == Persisted(h[|h| - 1])
  {
    assert Updates(states[|h| - 1], h[|h| - 1], states[|h|]);
  }

  lemma RunExtends(h: seq<Settings>, states: seq<State>, next: Settings, s: State)
    requires IsRun(h, states) && Admissible(next) && Updates(states[|h|], next, s)
    ensures IsRun(h + [next], states + [s])
  {
    hide Updates, Admissible, Initial;
  }

  lemma AdmissibleEnvironment(s: Settings, i: string)
    requires Admissible(s) && i in s.instances
    ensures IsSlug(i) && Named(Environment(s, i))
    ensures s.instances[i].environment.Some? ==> Environment(s, i) == s.instances[i].environment.value
  {}

  lemma KeptPut(store: Secrets, n: string)
    ensures Put(store, n, Lookup(store, n)) == store
  {}

  lemma StartFolded(store: Secrets, keys: set<string>, i: string)
    requires IsSlug(i)
    ensures FoldedSecrets(store, store, i, []) && SameElsewhere(store, store, i) && KeysGrown(keys, keys, i, [])
  {}
}
