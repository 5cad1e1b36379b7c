/** Leaving defaults out of the settings file (`stripDefaultServerSettings`,
    `apps/server/src/serverSettings.ts`) and reading the file back over the defaults. */
module SettingsDefaults {
  import opened Text

  /** A settings value; `Leaf` is anything compared as a whole, an array or a scalar. */
  datatype Value = Leaf(text: string) | Record(fields: map<string, Value>)

  /** Values under these keys are compared as a whole. */
  const ATOMIC: set<string> := {"automaticGitFetchInterval", "textGenerationModelSelection"}

  function Field(v: Value, key: string): Option<Value> {
    if v.Record? && key in v.fields then Some(v.fields[key]) else None
  }

  /** None stands for `undefined`, both as a default that does not exist and as nothing left. */
  function Strip(current: Value, default: Option<Value>): Option<Value>
    decreases current, 1
  {
    if current.Record? && default.Some? && default.value.Record? then
      var next := StripFields(current, default.value);
      if next == map[] then None else Some(Record(next))
    else if default == Some(current) then None
    else Some(current)
  }

  function StripFields(current: Value, default: Value): map<string, Value>
    requires current.Record?
    decreases current, 0
  {
    map key | key in current.fields && StripField(current, default, key).Some? :: StripField(current, default, key).value
  }

  function StripField(current: Value, default: Value, key: string): Option<Value>
    requires current.Record? && key in current.fields
    decreases current.fields[key], 2
  {
    if key in ATOMIC then
      if Field(default, key) == Some(current.fields[key]) then None else Some(current.fields[key])
    else Strip(current.fields[key], Field(default, key))
  }

  // Reading back: a key that is missing takes its default

  function Overlay(stored: Value, default: Option<Value>): Value
    decreases stored
  {
    if stored.Record? && default.Some? && default.value.Record? then
      Record(default.value.fields +
             map key | key in stored.fields ::
               if key in ATOMIC then stored.fields[key] else Overlay(stored.fields[key], Field(default.value, key)))
    else stored
  }

  function ReadBack(stored: Option<Value>, default: Option<Value>): Option<Value> {
    match stored
    case None => default
    case Some(v) => Some(Overlay(v, default))
  }

  /** Wherever a record meets a default record, it has all of its keys. */
  predicate Covers(current: Value, default: Option<Value>)
    decreases current
  {
    current.Record? && default.Some? && default.value.Record? ==>
      && (forall key | key in default.value.fields :: key in current.fields)
      && (forall key | key in current.fields :: key in ATOMIC || Covers(current.fields[key], Field(default.value, key)))
  }

  function ReadField(current: Value, default: Value, key: string): Option<Value>
    requires current.Record? && default.Record? && key in current.fields
  {
    var stored := StripField(current, default, key);
    if key in ATOMIC && stored.Some? then stored else ReadBack(stored, Field(default, key))
  }

  /** A record read back, key by key. */
  lemma ReadRecord(current: Value, default: Value)
    requires current.Record? && default.Record?
    ensures var r := ReadBack(Strip(current, Some(default)), Some(default));
            && r.Some? && r.value.Record?
            && r.value.fields.Keys == default.fields.Keys + StripFields(current, default).Keys
            && (forall key | key in current.fields :: Field(r.value, key) == ReadField(current, default, key))
  {
    hide StripField;
    var next := StripFields(current, default);
    var r := ReadBack(Strip(current, Some(default)), Some(default));
    if next == map[] {
      forall key | key in current.fields ensures StripField(current, default, key) == None {
        assert key !in next;
      }
    } else {
      assert r.value.fields.Keys == default.fields.Keys + next.Keys;
    }
  }

  lemma AtomicReadsBack(current: Value, default: Value, key: string)
    requires current.Record? && default.Record? && key in current.fields && key in ATOMIC
    ensures ReadField(current, default, key) == Some(current.fields[key])
  {}

  /** Leaving out the defaults and reading the file back returns the settings exactly when no key
      of a default record is missing from them. */
  lemma {:induction false} StripReadsBack(current: Value, default: Option<Value>)
    ensures ReadBack(Strip(current, default), default) == Some(current) <==> Covers(current, default)
    decreases current
  {
    if current.Record? && default.Some? && default.value.Record? {
      hide Overlay, ReadBack, Strip, StripFields;
      var def := default.value;
      ReadRecord(current, def);
      forall key | key in current.fields
        ensures ReadField(current, def, key) == Some(current.fields[key]) <==>
                key in ATOMIC || Covers(current.fields[key], Field(def, key))
      {
        if key in ATOMIC {
          AtomicReadsBack(current, def, key);
        } else {
          StripReadsBack(current.fields[key], Field(def, key));
          assert ReadField(current, def, key) == ReadBack(Strip(current.fields[key], Field(def, key)), Field(def, key));
        }
      }
      SameFields(current, def);
    }
  }

  // What is left out

  /** A value that is its default is left out altogether. */
  lemma {:induction false} DefaultIsLeftOut(v: Value)
    ensures Strip(v, Some(v)) == None
    decreases v
  {
    if v.Record? {
      forall key | key in v.fields ensures StripField(v, v, key) == None {
        if key !in ATOMIC { DefaultIsLeftOut(v.fields[key]); }
      }
      assert StripFields(v, v) == map[];
    }
  }

  /** Exactly the settings that differ are stored: a key of a record is left out if it has its default,
      and if it is left out then nothing below it differs but for missing keys. What is stored of a value
      that is compared as a whole is the whole value, and no record is stored empty. */
  lemma StoredExactlyWhenDifferent(current: Value, default: Value, key: string)
    requires current.Record? && default.Record? && key in current.fields
    ensures var next := StripFields(current, default);
      && (Field(default, key) == Some(current.fields[key]) ==> key !in next)
      && (key !in next && (key in ATOMIC || Covers(current.fields[key], Field(default, key))) ==>
            Field(default, key) == Some(current.fields[key]))
      && (key in next && (key in ATOMIC || current.fields[key].Leaf?) ==> next[key] == current.fields[key])
    ensures Strip(current, Some(default)) != Some(Record(map[]))
  {
    DefaultIsLeftOut(current.fields[key]);
    StripReadsBack(current.fields[key], Field(default, key));
  }

  /** Settings without a key of the defaults are read back with it. */
  lemma MissingKeyComesBack(key: string, value: Value)
    ensures var current, default := Record(map[]), Record(map[key := value]);
            !Covers(current, Some(default)) && ReadBack(Strip(current, Some(default)), Some(default)) == Some(default)
  {
    assert key in Record(map[key := value]).fields;
  }

  lemma SameFields(current: Value, default: Value)
    requires current.Record? && default.Record?
    ensures var r := ReadBack(Strip(current, Some(default)), Some(default));
            r == Some(current) <==>
              && (forall key | key in default.fields :: key in current.fields)
              && (forall key | key in current.fields :: ReadField(current, default, key) == Some(current.fields[key]))
  {
    hide Strip, StripField, ReadBack, ReadField;
    ReadRecord(current, default);
    var r := ReadBack(Strip(current, Some(default)), Some(default)).value;
    if (forall key | key in default.fields :: key in current.fields)
       && forall key | key in current.fields :: ReadField(current, default, key) == Some(current.fields[key]) {
      forall key | key in current.fields ensures key in r.fields && r.fields[key] == current.fields[key] {
        assert Field(r, key) == Some(current.fields[key]);
      }
      assert r.fields == current.fields;
    }
    if r == current {
      forall key | key in default.fields ensures key in current.fields { assert key in r.fields; }
    }
  }
}
