/** Sensitive environment variables of provider instances (`apps/server/src/serverSettings.ts`):
    the settings file holds redacted variables, the secret store their values. */
module ServerSettings {
  import opened Text
  import opened SecretNames

  datatype Variable = Variable(name: string, value: string, sensitive: bool, valueRedacted: Option<bool>)

  /** `rest` stands for the fields this part of the program passes through. */
  datatype Instance = Instance(environment: Option<seq<Variable>>, rest: string)

  datatype Settings = Settings(instances: map<string, Instance>, rest: string)

  type Secrets = map<string, string>

  datatype State = State(settings: Settings, secrets: Secrets)

  predicate Redacted(v: Variable) {
    v.valueRedacted == Some(true)
  }

  function Environment(s: Settings, i: string): seq<Variable> {
    if i in s.instances && s.instances[i].environment.Some? then s.instances[i].environment.value else []
  }

  /** What the schema of the settings admits. */
  predicate Admissible(s: Settings) {
    forall i | i in s.instances :: IsSlug(i) && Named(Environment(s, i))
  }

  predicate Named(env: seq<Variable>) {
    forall k | 0 <= k < |env| :: IsVariableName(env[k].name)
  }

  /** No instance names a variable twice. */
  predicate Distinct(s: Settings) {
    forall i :: i in s.instances ==> DistinctNames(Environment(s, i))
  }

  predicate DistinctNames(env: seq<Variable>) {
    forall j, k | 0 <= j < k < |env| :: env[j].name != env[k].name
  }

  function Lookup(secrets: Secrets, n: string): Option<string> {
    if n in secrets then Some(secrets[n]) else None
  }

  // One variable

  /** `redactProviderEnvironmentVariable` */
  function Redact(v: Variable): Variable {
    if !v.sensitive then v.(valueRedacted := None)
    else if v.value != "" || Redacted(v) then v.(value := "", valueRedacted := Some(true))
    else v.(value := "")
  }

  /** The variable as the settings file keeps it. */
  function PersistVariable(v: Variable): Variable {
    if !v.sensitive then Redact(v)
    else if Redacted(v) then Redact(v)
    else if v.value != "" then v.(value := "", valueRedacted := Some(true))
    else v.(valueRedacted := None)
  }

  /** What submitting the variable does to its secret. */
  function Effect(v: Variable, secret: Option<string>): Option<string> {
    if !v.sensitive then None
    else if Redacted(v) then secret
    else if v.value != "" then Some(v.value)
    else None
  }

  /** What submitting a whole environment does to the secret of `x`. */
  function Folded(env: seq<Variable>, x: string, secret: Option<string>): Option<string> {
    if env == [] then secret
    else
      var earlier := Folded(env[..|env| - 1], x, secret);
      var v := env[|env| - 1];
      if v.name == x then Effect(v, earlier) else earlier
  }

  predicate SensitiveIn(env: seq<Variable>, x: string) {
    exists k :: 0 <= k < |env| && env[k].sensitive && env[k].name == x
  }

  function MaterializeVariable(i: string, v: Variable, secrets: Secrets): Variable
    requires PlainChars(i) && IsVariableName(v.name)
  {
    if !v.sensitive || !Redacted(v) then v
    else
      var n := SecretName(i, v.name);
      v.(value := if n in secrets then secrets[n] else "")
  }

  // Whole settings

  function PersistEnvironment(env: seq<Variable>): seq<Variable> {
    seq(|env|, k requires 0 <= k < |env| => PersistVariable(env[k]))
  }

  function PersistInstance(instance: Instance): Instance {
    match instance.environment
    case None => instance
    case Some(env) => instance.(environment := Some(PersistEnvironment(env)))
  }

  function Persisted(s: Settings): Settings {
    s.(instances := map i | i in s.instances :: PersistInstance(s.instances[i]))
  }

  function MaterializeEnvironment(i: string, env: seq<Variable>, secrets: Secrets): seq<Variable>
    requires PlainChars(i) && Named(env)
  {
    seq(|env|, k requires 0 <= k < |env| => MaterializeVariable(i, env[k], secrets))
  }

  function MaterializeInstance(i: string, instance: Instance, secrets: Secrets): Instance
    requires PlainChars(i) && (instance.environment.Some? ==> Named(instance.environment.value))
  {
    match instance.environment
    case None => instance
    case Some(env) => instance.(environment := Some(MaterializeEnvironment(i, env, secrets)))
  }

  function Materialized(s: Settings, secrets: Secrets): Settings
    requires Admissible(s)
  {
    s.(instances := map i | i in s.instances :: MaterializeInstance(i, AdmissibleInstance(s, i), secrets))
  }

  function AdmissibleInstance(s: Settings, i: string): (r: Instance)
    requires Admissible(s) && i in s.instances
    ensures PlainChars(i) && (r.environment.Some? ==> Named(r.environment.value))
  {
    assert IsSlug(i) && Named(Environment(s, i));
    s.instances[i]
  }

  function RedactEnvironment(env: seq<Variable>): seq<Variable> {
    seq(|env|, k requires 0 <= k < |env| => Redact(env[k]))
  }

  /** `redactServerSettingsForClient` */
  function RedactedForClient(s: Settings): Settings {
    s.(instances := map i | i in s.instances :: RedactInstance(s.instances[i]))
  }

  function RedactInstance(instance: Instance): Instance {
    match instance.environment
    case None => instance
    case Some(env) => instance.(environment := Some(RedactEnvironment(env)))
  }

  /** The secret of `x` of instance `i` after `next` has replaced `current`. */
  function SecretAfter(current: Settings, next: Settings, i: string, x: string, secret: Option<string>): Option<string> {
    if SensitiveIn(Environment(current, i), x) && !SensitiveIn(Environment(next, i), x) then None
    else Folded(Environment(next, i), x, secret)
  }

  ghost predicate IsProviderSecret(n: string) {
    exists i, x :: IsSlug(i) && IsVariableName(x) && n == SecretName(i, x)
  }

  /** One successful update: `next` is what the patch makes of the current settings. */
  ghost predicate Updates(s: State, next: Settings, t: State) {
    && t.settings == Persisted(next)
    && SecretsFollow(s, next, t.secrets)
    && (forall n | !IsProviderSecret(n) :: Lookup(t.secrets, n) == Lookup(s.secrets, n))
  }

  ghost predicate SecretsFollow(s: State, next: Settings, secrets: Secrets) {
    forall i, x | IsSlug(i) && IsVariableName(x) :: SecretFollows(s, next, secrets, i, x)
  }

  ghost predicate SecretFollows(s: State, next: Settings, secrets: Secrets, i: string, x: string)
    requires IsSlug(i) && IsVariableName(x)
  {
    var n := SecretName(i, x);
    Lookup(secrets, n) == SecretAfter(s.settings, next, i, x, Lookup(s.secrets, n))
  }
}
