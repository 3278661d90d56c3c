/**
  The payload sanitizer of server/src/redaction.ts.

  Event payloads are JSON-like trees.  `Agree` says which differences between
  two trees are confidential, without mentioning the sanitizer; the main
  theorem is that trees that agree have the same sanitized form, so the output
  tells nothing about confidential values.

  Which key names, tokens and texts are secret-bearing is a finite table of
  patterns in the source; here it is the parameter `Rules`.
 */
module PayloadSanitizer {

  datatype Option<+T> = None | Some(value: T)

  datatype Value =
    | Undefined
    | Null
    | Bool(flag: bool)
    | Number(number: real)
    | NonFinite
    | Str(text: string)
    | Arr(items: seq<Value>)
    | Obj(fields: seq<Field>)
    | Exotic(id: nat)  // an object with another prototype, which passes unchanged

  datatype Field = Field(key: string, value: Value)

  datatype Rules = Rules(
    secretKey: string -> bool,
    commandKey: string -> bool,
    commandArgsKey: string -> bool,
    jwtValue: string -> bool,
    secretFlag: string -> bool,
    publicSchema: string -> bool,
    eventType: string -> bool,
    referenceId: string -> bool,
    userSecretKey: string -> bool,
    allowlistKey: string -> bool,
    redactText: string -> string)

  predicate PlainKey(rules: Rules, key: string) {
    !rules.secretKey(key) && !rules.commandKey(key) && !rules.commandArgsKey(key)
  }

  /** The two fields that identify an event envelope are neither secret nor command fields. */
  ghost predicate EnvelopeKeysPlain(rules: Rules) {
    PlainKey(rules, "schema") && PlainKey(rules, "schemaVersion")
  }

  const REDACTED := Str("***REDACTED***")

  const AUDIT_COUNT_KEYS := {
    "secretsRevoked", "secretsRetainedShared", "credentialRefsCleared", "secretBindingsRemoved",
    "tokenIssuanceHashesCleared", "gatewayTokensRevoked", "inputTokens", "outputTokens",
    "cacheReadTokens", "cacheWriteTokens", "preTokens", "postTokens"}

  /** Assigning to this key of a fresh object sets its prototype, if anything, and makes no own key. */
  const PROTOTYPE_KEY := "__proto__"

  // ---------------------------------------------------------------- bindings

  function Get(fields: seq<Field>, key: string): Option<Value>
  {
    if fields == [] then None
    else if fields[0].key == key then Some(fields[0].value)
    else Get(fields[1..], key)
  }

  predicate TypeIs(fields: seq<Field>, name: string) {
    Get(fields, "type") == Some(Str(name))
  }

  predicate IsSecretRef(rules: Rules, fields: seq<Field>) {
    var id := Get(fields, "secretId");
    TypeIs(fields, "secret_ref") && id.Some? && id.value.Str? && rules.referenceId(id.value.text)
  }

  predicate IsUserSecretRef(rules: Rules, fields: seq<Field>) {
    var key := Get(fields, "key");
    TypeIs(fields, "user_secret_ref") && key.Some? && key.value.Str? && rules.userSecretKey(key.value.text)
    && rules.redactText(key.value.text) == key.value.text
  }

  predicate IsReference(rules: Rules, value: Value) {
    value.Obj? && (IsSecretRef(rules, value.fields) || IsUserSecretRef(rules, value.fields))
  }

  predicate IsPlainBinding(value: Value) {
    value.Obj? && TypeIs(value.fields, "plain") && Get(value.fields, "value").Some?
  }

  function SafeVersion(version: Option<Value>): seq<Field> {
    if version == Some(Str("latest")) then [Field("version", Str("latest"))]
    else if version.Some? && version.value.Number? && version.value.number > 0.0
      && version.value.number.Floor as real == version.value.number then [Field("version", version.value)]
    else []
  }

  function KeepIf(key: string, value: Option<Value>, keep: bool): seq<Field> {
    if value.Some? && keep then [Field(key, value.value)] else []
  }

  function SanitizeSecretRef(rules: Rules, fields: seq<Field>): Value {
    var class' := Get(fields, "projectionClass");
    var allow := Get(fields, "projectionAllowlistKey");
    Obj([Field("type", Str("secret_ref"))] + KeepIf("secretId", Get(fields, "secretId"), true)
      + SafeVersion(Get(fields, "version"))
      + KeepIf("projectionClass", class', class' in {Some(Str("unclassified")), Some(Str("class_3_static_lease"))})
      + KeepIf("projectionAllowlistKey", allow,
          allow == Some(Null)
          || (allow.Some? && allow.value.Str? && rules.allowlistKey(allow.value.text)
              && rules.redactText(allow.value.text) == allow.value.text)))
  }

  function SanitizeUserSecretRef(fields: seq<Field>): Value {
    var required := Get(fields, "required");
    var allowMissing := Get(fields, "allowMissingOverride");
    Obj([Field("type", Str("user_secret_ref"))] + KeepIf("key", Get(fields, "key"), true)
      + SafeVersion(Get(fields, "version"))
      + KeepIf("required", required, required.Some? && required.value.Bool?)
      + KeepIf("allowMissingOverride", allowMissing, allowMissing.Some? && allowMissing.value.Bool?))
  }

  function PlainBinding(value: Value): Value {
    Obj([Field("type", Str("plain")), Field("value", value)])
  }

  // --------------------------------------------------------------- sanitizer

  predicate IsAuditCount(key: string, value: Value) {
    key in AUDIT_COUNT_KEYS && value.Number?
  }

  /** The key guards this value: a secret-named field that is neither the audit reason nor a finite count. */
  predicate Guarded(rules: Rules, key: string, value: Value) {
    rules.secretKey(key) && key != "authorizationReason" && !IsAuditCount(key, value)
  }

  predicate IsEnvelope(container: seq<Field>) {
    Get(container, "schema") == Some(Str("geetorus.prp.event.v1")) && Get(container, "schemaVersion") == Some(Number(1.0))
  }

  predicate IsEventDiscriminator(rules: Rules, container: seq<Field>, key: string, value: Value) {
    key == "eventType" && IsEnvelope(container) && value.Str? && rules.eventType(value.text)
  }

  predicate IsSchemaDiscriminator(rules: Rules, key: string, value: Value) {
    key in {"schema", "runtimeSchema"} && value.Str? && rules.publicSchema(value.text)
  }

  lemma GetSmaller(fields: seq<Field>, key: string)
    ensures Get(fields, key).Some? ==> exists i :: 0 <= i < |fields| && fields[i].value == Get(fields, key).value
  {
    if fields != [] && fields[0].key != key {
      GetSmaller(fields[1..], key);
      if Get(fields[1..], key).Some? {
        var i :| 0 <= i < |fields[1..]| && fields[1..][i].value == Get(fields[1..], key).value;
        assert fields[i + 1].value == Get(fields, key).value;
      }
    }
  }

  function SanitizeValue(rules: Rules, value: Value): Value
    decreases value, 1
  {
    match value
    case Str(text) => if rules.jwtValue(text) then REDACTED else Str(rules.redactText(text))
    case Arr(items) => Arr(SanitizeItems(rules, items))
    case Obj(fields) =>
      if IsSecretRef(rules, fields) then SanitizeSecretRef(rules, fields)
      else if IsUserSecretRef(rules, fields) then SanitizeUserSecretRef(fields)
      else if IsPlainBinding(value) then
        GetSmaller(fields, "value");
        PlainBinding(SanitizeValue(rules, Get(fields, "value").value))
      else Obj(SanitizeFields(rules, fields, fields))
    case _ => value
  }

  function SanitizeItems(rules: Rules, items: seq<Value>): seq<Value>
    decreases items, 0
  {
    if items == [] then [] else [SanitizeValue(rules, items[0])] + SanitizeItems(rules, items[1..])
  }

  /** Command arguments: whatever follows a secret flag goes, and a hidden argument is not read as a flag itself. */
  function SanitizeArgs(rules: Rules, args: seq<Value>, redactNext: bool): seq<Value>
    decreases args, 0
  {
    if args == [] then []
    else if redactNext then [REDACTED] + SanitizeArgs(rules, args[1..], false)
    else if !args[0].Str? then [SanitizeValue(rules, args[0])] + SanitizeArgs(rules, args[1..], false)
    else if rules.secretFlag(args[0].text) then [args[0]] + SanitizeArgs(rules, args[1..], true)
    else [Str(rules.redactText(args[0].text))] + SanitizeArgs(rules, args[1..], false)
  }

  function SanitizeGuarded(rules: Rules, value: Value): Value {
    if value.Obj? && IsSecretRef(rules, value.fields) then SanitizeSecretRef(rules, value.fields)
    else if value.Obj? && IsUserSecretRef(rules, value.fields) then SanitizeUserSecretRef(value.fields)
    else if IsPlainBinding(value) then PlainBinding(REDACTED)
    else REDACTED
  }

  function SanitizeField(rules: Rules, container: seq<Field>, key: string, value: Value): Value
    decreases value, 2
  {
    if rules.commandArgsKey(key) && value.Arr? then Arr(SanitizeArgs(rules, value.items, false))
    else if rules.commandKey(key) && value.Str? then Str(rules.redactText(value.text))
    else if Guarded(rules, key, value) then SanitizeGuarded(rules, value)
    else if IsEventDiscriminator(rules, container, key, value) then value
    else if IsSchemaDiscriminator(rules, key, value) then value
    else if key == "surface" && value.Str? then Str(rules.redactText(value.text))
    else if value.Str? && rules.jwtValue(value.text) then REDACTED
    else SanitizeValue(rules, value)
  }

  /** The own field that an assignment to a key makes. */
  function Assigned(key: string, value: Value): seq<Field> {
    if key == PROTOTYPE_KEY then [] else [Field(key, value)]
  }

  function SanitizeFields(rules: Rules, container: seq<Field>, fields: seq<Field>): seq<Field>
    decreases fields, 0
  {
    if fields == [] then []
    else
      Assigned(fields[0].key, SanitizeField(rules, container, fields[0].key, fields[0].value))
      + SanitizeFields(rules, container, fields[1..])
  }

  function SanitizeRecord(rules: Rules, record: seq<Field>): seq<Field> {
    SanitizeFields(rules, record, record)
  }

  // --------------------------------------------------------------- agreement

  /**
    Two values that may differ only where something is confidential.  The
    relation follows the data: references whole, plain bindings in their
    payload, records field by field, arrays item by item.
   */
  ghost predicate Agree(rules: Rules, a: Value, b: Value)
    decreases a, 1
  {
    if a.Arr? && b.Arr? then AgreeItems(rules, a.items, b.items)
    else if a.Obj? && b.Obj? then
      if IsReference(rules, a) || IsReference(rules, b) then a == b
      else if IsPlainBinding(a) || IsPlainBinding(b) then
        GetSmaller(a.fields, "value");
        IsPlainBinding(a) && IsPlainBinding(b) && Agree(rules, Get(a.fields, "value").value, Get(b.fields, "value").value)
      else AgreeFields(rules, a.fields, b.fields)
    else a == b
  }

  ghost predicate AgreeItems(rules: Rules, a: seq<Value>, b: seq<Value>)
    decreases a, 0
  {
    |a| == |b| && (a != [] ==> Agree(rules, a[0], b[0]) && AgreeItems(rules, a[1..], b[1..]))
  }

  /** After a secret flag the next argument may be anything at all. */
  ghost predicate AgreeArgs(rules: Rules, a: seq<Value>, b: seq<Value>, hidden: bool)
    decreases a, 0
  {
    |a| == |b| && (a != [] ==>
      if hidden then AgreeArgs(rules, a[1..], b[1..], false)
      else Agree(rules, a[0], b[0]) && AgreeArgs(rules, a[1..], b[1..], a[0].Str? && rules.secretFlag(a[0].text)))
  }

  ghost predicate AgreeField(rules: Rules, key: string, a: Value, b: Value)
    decreases a, 2
  {
    if rules.commandArgsKey(key) && (a.Arr? || b.Arr?) then
      a.Arr? && b.Arr? && AgreeArgs(rules, a.items, b.items, false)
    else if rules.commandKey(key) && (a.Str? || b.Str?) then a == b
    else if Guarded(rules, key, a) || Guarded(rules, key, b) then
      && Guarded(rules, key, a) && Guarded(rules, key, b)
      && if IsReference(rules, a) || IsReference(rules, b) then a == b else IsPlainBinding(a) == IsPlainBinding(b)
    else Agree(rules, a, b)
  }

  ghost predicate AgreeFields(rules: Rules, a: seq<Field>, b: seq<Field>)
    decreases a, 0
  {
    |a| == |b| && (a != [] ==>
      && a[0].key == b[0].key && AgreeField(rules, a[0].key, a[0].value, b[0].value)
      && AgreeFields(rules, a[1..], b[1..]))
  }

  // --------------------------------------------------------- noninterference

  /** Agreement leaves the envelope of an event in place. */
  lemma {:induction false} AgreeGet(rules: Rules, a: seq<Field>, b: seq<Field>, key: string, value: Value)
    requires PlainKey(rules, key) && (value.Str? || value.Number?)
    requires AgreeFields(rules, a, b)
    ensures Get(a, key) == Some(value) <==> Get(b, key) == Some(value)
  {
    if a != [] {
      if a[0].key == key {
        assert AgreeField(rules, key, a[0].value, b[0].value);
        assert Agree(rules, a[0].value, b[0].value);
      } else {
        AgreeGet(rules, a[1..], b[1..], key, value);
      }
    }
  }

  lemma {:induction false} SameValue(rules: Rules, a: Value, b: Value)
    requires EnvelopeKeysPlain(rules) && Agree(rules, a, b)
    ensures SanitizeValue(rules, a) == SanitizeValue(rules, b)
    decreases a, 1
  {
    if a.Arr? && b.Arr? {
      SameItems(rules, a.items, b.items);
    } else if a.Obj? && b.Obj? && !IsReference(rules, a) && !IsReference(rules, b) {
      if IsPlainBinding(a) {
        GetSmaller(a.fields, "value");
        SameValue(rules, Get(a.fields, "value").value, Get(b.fields, "value").value);
      } else {
        SameFields(rules, a.fields, b.fields, a.fields, b.fields);
      }
    }
  }

  lemma {:induction false} SameItems(rules: Rules, a: seq<Value>, b: seq<Value>)
    requires EnvelopeKeysPlain(rules) && AgreeItems(rules, a, b)
    ensures SanitizeItems(rules, a) == SanitizeItems(rules, b)
    decreases a, 0
  {
    if a != [] {
      SameValue(rules, a[0], b[0]);
      SameItems(rules, a[1..], b[1..]);
    }
  }

  lemma {:induction false} SameArgs(rules: Rules, a: seq<Value>, b: seq<Value>, hidden: bool)
    requires EnvelopeKeysPlain(rules) && AgreeArgs(rules, a, b, hidden)
    ensures SanitizeArgs(rules, a, hidden) == SanitizeArgs(rules, b, hidden)
    decreases a, 0
  {
    if a != [] {
      if hidden {
        SameArgs(rules, a[1..], b[1..], false);
      } else {
        SameValue(rules, a[0], b[0]);
        SameArgs(rules, a[1..], b[1..], a[0].Str? && rules.secretFlag(a[0].text));
      }
    }
  }

  lemma SameEnvelope(rules: Rules, ca: seq<Field>, cb: seq<Field>)
    requires EnvelopeKeysPlain(rules) && AgreeFields(rules, ca, cb)
    ensures IsEnvelope(ca) == IsEnvelope(cb)
  {
    AgreeGet(rules, ca, cb, "schema", Str("geetorus.prp.event.v1"));
    AgreeGet(rules, ca, cb, "schemaVersion", Number(1.0));
  }

  /** A value that no guard hides. */
  lemma SameOpen(rules: Rules, ca: seq<Field>, cb: seq<Field>, key: string, a: Value, b: Value)
    requires Agree(rules, a, b) && SanitizeValue(rules, a) == SanitizeValue(rules, b) && IsEnvelope(ca) == IsEnvelope(cb)
    requires rules.commandArgsKey(key) ==> !a.Arr? && !b.Arr?
    requires !Guarded(rules, key, a) && !Guarded(rules, key, b)
    ensures SanitizeField(rules, ca, key, a) == SanitizeField(rules, cb, key, b)
  {
    if a.Str? || b.Str? {
      assert a == b;
      assert IsEventDiscriminator(rules, ca, key, a) == IsEventDiscriminator(rules, cb, key, b);
    }
  }

  lemma {:induction false} SameField(rules: Rules, ca: seq<Field>, cb: seq<Field>, key: string, a: Value, b: Value)
    requires EnvelopeKeysPlain(rules) && AgreeFields(rules, ca, cb) && AgreeField(rules, key, a, b)
    ensures SanitizeField(rules, ca, key, a) == SanitizeField(rules, cb, key, b)
    decreases a, 2
  {
    SameEnvelope(rules, ca, cb);
    if rules.commandArgsKey(key) && a.Arr? {
      SameArgs(rules, a.items, b.items, false);
    } else if rules.commandKey(key) && a.Str? {
    } else if Guarded(rules, key, a) {
    } else {
      SameValue(rules, a, b);
      SameOpen(rules, ca, cb, key, a, b);
    }
  }

  lemma {:induction false} SameFields(rules: Rules, ca: seq<Field>, cb: seq<Field>, a: seq<Field>, b: seq<Field>)
    requires EnvelopeKeysPlain(rules) && AgreeFields(rules, ca, cb) && AgreeFields(rules, a, b)
    ensures SanitizeFields(rules, ca, a) == SanitizeFields(rules, cb, b)
    decreases a, 0
  {
    if a != [] {
      SameField(rules, ca, cb, a[0].key, a[0].value, b[0].value);
      SameFields(rules, ca, cb, a[1..], b[1..]);
    }
  }

  /** Payloads that agree are sanitized to the same record. */
  lemma NonInterference(rules: Rules, a: seq<Field>, b: seq<Field>)
    requires EnvelopeKeysPlain(rules) && AgreeFields(rules, a, b)
    ensures SanitizeRecord(rules, a) == SanitizeRecord(rules, b)
  {
    SameFields(rules, a, b, a, b);
  }

  // ------------------------------------------------- what agreement includes

  lemma {:induction false} AgreeSelf(rules: Rules, a: Value)
    ensures Agree(rules, a, a)
    decreases a, 1
  {
    if a.Arr? {
      AgreeItemsSelf(rules, a.items);
    } else if a.Obj? && !IsReference(rules, a) {
      if IsPlainBinding(a) {
        GetSmaller(a.fields, "value");
        AgreeSelf(rules, Get(a.fields, "value").value);
      } else {
        AgreeFieldsSelf(rules, a.fields);
      }
    }
  }

  lemma {:induction false} AgreeItemsSelf(rules: Rules, a: seq<Value>)
    ensures AgreeItems(rules, a, a) && AgreeArgs(rules, a, a, false) && AgreeArgs(rules, a, a, true)
    decreases a, 0
  {
    if a != [] {
      AgreeSelf(rules, a[0]);
      AgreeItemsSelf(rules, a[1..]);
    }
  }

  lemma {:induction false} AgreeFieldSelf(rules: Rules, key: string, a: Value)
    ensures AgreeField(rules, key, a, a)
    decreases a, 2
  {
    AgreeSelf(rules, a);
    if a.Arr? {
      AgreeItemsSelf(rules, a.items);
    }
  }

  lemma {:induction false} AgreeFieldsSelf(rules: Rules, a: seq<Field>)
    ensures AgreeFields(rules, a, a)
    decreases a, 0
  {
    if a != [] {
      AgreeFieldSelf(rules, a[0].key, a[0].value);
      AgreeFieldsSelf(rules, a[1..]);
    }
  }

  lemma {:induction false} AgreeFieldsAt(rules: Rules, a: seq<Field>, i: nat, value: Value)
    requires i < |a| && AgreeField(rules, a[i].key, a[i].value, value)
    ensures AgreeFields(rules, a, a[i := Field(a[i].key, value)])
    decreases |a|
  {
    var b := a[i := Field(a[i].key, value)];
    if i == 0 {
      assert b[1..] == a[1..];
      AgreeFieldsSelf(rules, a[1..]);
    } else {
      AgreeFieldSelf(rules, a[0].key, a[0].value);
      assert b[1..] == a[1..][i - 1 := Field(a[i].key, value)];
      AgreeFieldsAt(rules, a[1..], i - 1, value);
    }
  }

  /** Replacing the value of a guarded field, at any place of a record, changes nothing in the output. */
  lemma GuardedValueIrrelevant(rules: Rules, record: seq<Field>, i: nat, value: Value)
    requires EnvelopeKeysPlain(rules) && i < |record|
    requires var key, was := record[i].key, record[i].value;
      && Guarded(rules, key, was) && Guarded(rules, key, value)
      && !rules.commandKey(key) && !rules.commandArgsKey(key)
      && !IsReference(rules, was) && !IsReference(rules, value)
      && IsPlainBinding(was) == IsPlainBinding(value)
    ensures SanitizeRecord(rules, record) == SanitizeRecord(rules, record[i := Field(record[i].key, value)])
  {
    AgreeFieldsAt(rules, record, i, value);
    NonInterference(rules, record, record[i := Field(record[i].key, value)]);
  }

  /** Whatever follows a secret flag among command arguments cannot be told from the output. */
  lemma {:induction false} ArgumentAfterFlagIrrelevant(rules: Rules, args: seq<Value>, i: nat, value: Value)
    requires 0 < i < |args| && HidesNext(rules, args, i)
    ensures SanitizeArgs(rules, args, false) == SanitizeArgs(rules, args[i := value], false)
  {
    ArgIrrelevantFrom(rules, args, i, value, false);
  }

  /** The argument at `i` stands behind a flag that is itself read as a flag. */
  predicate HiddenAt(rules: Rules, args: seq<Value>, i: nat, hidden: bool)
    requires i < |args|
  {
    if i == 0 then hidden
    else HiddenAt(rules, args[1..], i - 1, !hidden && args[0].Str? && rules.secretFlag(args[0].text))
  }

  predicate HidesNext(rules: Rules, args: seq<Value>, i: nat)
    requires 0 < i < |args|
  {
    HiddenAt(rules, args, i, false)
  }

  lemma {:induction false} ArgIrrelevantFrom(rules: Rules, args: seq<Value>, i: nat, value: Value, hidden: bool)
    requires i < |args| && HiddenAt(rules, args, i, hidden)
    ensures SanitizeArgs(rules, args, hidden) == SanitizeArgs(rules, args[i := value], hidden)
  {
    var b := args[i := value];
    if i == 0 {
      assert b[1..] == args[1..];
    } else {
      assert b[1..] == args[1..][i - 1 := value];
      ArgIrrelevantFrom(rules, args[1..], i - 1, value, !hidden && args[0].Str? && rules.secretFlag(args[0].text));
    }
  }

  // -------------------------------------------------------------------- shape

  /**
    The output keeps arrays as long as they were and records with the keys they
    had, but for the prototype key, except where a value was redacted whole.
   */
  ghost predicate SameShape(rules: Rules, value: Value, output: Value)
    decreases value, 1
  {
    output == REDACTED ||
    match value
    case Str(_) => output.Str?
    case Arr(items) => output.Arr? && SameShapes(rules, items, output.items)
    case Obj(fields) =>
      output.Obj? && (IsReference(rules, value) || IsPlainBinding(value) || SameKeys(rules, fields, output.fields))
    case _ => output == value
  }

  ghost predicate SameShapes(rules: Rules, items: seq<Value>, outputs: seq<Value>)
    decreases items, 0
  {
    |items| == |outputs| && forall i :: 0 <= i < |items| ==> SameShape(rules, items[i], outputs[i])
  }

  ghost predicate SameKeys(rules: Rules, fields: seq<Field>, outputs: seq<Field>)
    decreases fields, 0
  {
    if fields == [] then outputs == []
    else if fields[0].key == PROTOTYPE_KEY then SameKeys(rules, fields[1..], outputs)
    else
      && outputs != [] && outputs[0].key == fields[0].key
      && SameShape(rules, fields[0].value, outputs[0].value) && SameKeys(rules, fields[1..], outputs[1..])
  }

  function KeysOf(fields: seq<Field>): seq<string> {
    seq(|fields|, i requires 0 <= i < |fields| => fields[i].key)
  }

  /** The output has the keys of the record in their order, but for the prototype key. */
  lemma {:induction false} KeysAreKept(rules: Rules, fields: seq<Field>, outputs: seq<Field>)
    requires SameKeys(rules, fields, outputs)
    ensures forall key :: key in KeysOf(outputs) <==> key in KeysOf(fields) && key != PROTOTYPE_KEY
    ensures |outputs| <= |fields|
    ensures KeysOf(outputs) == KeysOf(fields) <==> PROTOTYPE_KEY !in KeysOf(fields)
    decreases fields
  {
    if fields != [] {
      assert KeysOf(fields) == [fields[0].key] + KeysOf(fields[1..]);
      if fields[0].key == PROTOTYPE_KEY {
        KeysAreKept(rules, fields[1..], outputs);
        assert PROTOTYPE_KEY !in KeysOf(outputs);
      } else {
        KeysAreKept(rules, fields[1..], outputs[1..]);
        assert KeysOf(outputs) == [outputs[0].key] + KeysOf(outputs[1..]);
      }
    }
  }

  /** So every key survives exactly when none of them is the prototype key; that one never does. */
  lemma RecordKeysKeptIff(rules: Rules, record: seq<Field>)
    ensures forall key :: key in KeysOf(SanitizeRecord(rules, record)) <==> key in KeysOf(record) && key != PROTOTYPE_KEY
    ensures KeysOf(SanitizeRecord(rules, record)) == KeysOf(record) <==> PROTOTYPE_KEY !in KeysOf(record)
  {
    FieldsKeepShape(rules, record, record);
    KeysAreKept(rules, record, SanitizeRecord(rules, record));
  }

  /** A record whose only key is that one comes out empty. */
  lemma PrototypeKeyIsLost(rules: Rules, value: Value)
    ensures SanitizeRecord(rules, [Field(PROTOTYPE_KEY, value)]) == []
  {
    var record := [Field(PROTOTYPE_KEY, value)];
    FieldsStep(rules, record, record, 0);
    assert record[0..] == record && record[1..] == [];
  }

  /** The first of the remaining fields, and the rest. */
  lemma FieldsStep(rules: Rules, container: seq<Field>, fields: seq<Field>, i: nat)
    requires i < |fields|
    ensures SanitizeFields(rules, container, fields[i..]) ==
      if fields[i].key == PROTOTYPE_KEY then SanitizeFields(rules, container, fields[i + 1..])
      else [Field(fields[i].key, SanitizeField(rules, container, fields[i].key, fields[i].value))]
           + SanitizeFields(rules, container, fields[i + 1..])
  {
    assert fields[i..][1..] == fields[i + 1..];
    assert [] + SanitizeFields(rules, container, fields[i + 1..]) == SanitizeFields(rules, container, fields[i + 1..]);
  }

  lemma {:induction false} ValueKeepsShape(rules: Rules, value: Value)
    ensures SameShape(rules, value, SanitizeValue(rules, value))
    decreases value, 1
  {
    match value
    case Arr(items) => ItemsKeepShape(rules, items, false);
    case Obj(fields) =>
      if !IsReference(rules, value) && !IsPlainBinding(value) {
        FieldsKeepShape(rules, fields, fields);
      }
    case _ =>
  }

  lemma {:induction false} ItemsKeepShape(rules: Rules, items: seq<Value>, redactNext: bool)
    ensures SameShapes(rules, items, SanitizeItems(rules, items))
    ensures SameShapes(rules, items, SanitizeArgs(rules, items, redactNext))
    decreases items, 0
  {
    if items != [] {
      var nextHidden := !redactNext && items[0].Str? && rules.secretFlag(items[0].text);
      ValueKeepsShape(rules, items[0]);
      ItemsKeepShape(rules, items[1..], nextHidden);
      assert SanitizeItems(rules, items)[1..] == SanitizeItems(rules, items[1..]);
      assert SanitizeArgs(rules, items, redactNext)[1..] == SanitizeArgs(rules, items[1..], nextHidden);
    }
  }

  lemma {:induction false} FieldsKeepShape(rules: Rules, container: seq<Field>, fields: seq<Field>)
    ensures SameKeys(rules, fields, SanitizeFields(rules, container, fields))
    decreases fields, 0
  {
    if fields != [] {
      FieldsStep(rules, container, fields, 0);
      assert fields[0..] == fields;
      FieldKeepsShape(rules, container, fields[0].key, fields[0].value);
      FieldsKeepShape(rules, container, fields[1..]);
    }
  }

  lemma {:induction false} FieldKeepsShape(rules: Rules, container: seq<Field>, key: string, value: Value)
    ensures SameShape(rules, value, SanitizeField(rules, container, key, value))
    decreases value, 2
  {
    ValueKeepsShape(rules, value);
    if value.Arr? {
      ItemsKeepShape(rules, value.items, false);
    }
  }

  // ---------------------------------------------------------- leaf by leaf

  /** A key holds the value of its first field, if it has one. */
  lemma {:induction false} GetIsFirst(fields: seq<Field>, key: string, i: nat)
    requires i <= |fields| && forall j :: 0 <= j < i ==> fields[j].key != key
    requires i < |fields| ==> fields[i].key == key
    ensures Get(fields, key) == if i < |fields| then Some(fields[i].value) else None
  {
    if i > 0 {
      GetIsFirst(fields[1..], key, i - 1);
    }
  }

  /** What stands for a text: the text with its credentials replaced, or the marker for a token where the place admits none. */
  ghost predicate SafeText(rules: Rules, text: string, output: Value, admitsTokens: bool) {
    if rules.jwtValue(text) && !admitsTokens then output == REDACTED else output == Str(rules.redactText(text))
  }

  /** What stands for a value in the output, leaf by leaf, without saying how it is computed. */
  ghost predicate SafeValue(rules: Rules, value: Value, output: Value)
    decreases value, 1
  {
    match value
    case Str(text) => SafeText(rules, text, output, false)
    case Arr(items) => output.Arr? && SafeItems(rules, items, output.items)
    case Obj(fields) =>
      if Refers(rules, fields) then SafeReference(rules, fields, output)
      else if Binds(fields) then
        GetSmaller(fields, "value");
        && output.Obj? && output.fields != [] && output == PlainBinding(output.fields[|output.fields| - 1].value)
        && SafeValue(rules, Get(fields, "value").value, output.fields[|output.fields| - 1].value)
      else output.Obj? && SafeFields(rules, fields, fields, output.fields)
    case _ => output == value
  }

  ghost predicate SafeItems(rules: Rules, items: seq<Value>, outputs: seq<Value>)
    decreases items, 0
  {
    |items| == |outputs| && forall i :: 0 <= i < |items| ==> SafeValue(rules, items[i], outputs[i])
  }

  /** An argument is hidden behind a flag, is such a flag itself, or is scanned. */
  ghost predicate SafeArgs(rules: Rules, args: seq<Value>, outputs: seq<Value>, redactNext: bool)
    decreases args, 0
  {
    |args| == |outputs| && forall i :: 0 <= i < |args| ==>
      if HiddenAt(rules, args, i, redactNext) then outputs[i] == REDACTED
      else if args[i].Str? && rules.secretFlag(args[i].text) then outputs[i] == args[i]
      else if args[i].Str? then SafeText(rules, args[i].text, outputs[i], true)
      else SafeValue(rules, args[i], outputs[i])
  }

  /** The output fields stand for the record's, without its prototype key. */
  ghost predicate SafeFields(rules: Rules, container: seq<Field>, fields: seq<Field>, outputs: seq<Field>)
    decreases fields, 0
  {
    if fields == [] then outputs == []
    else if fields[0].key == PROTOTYPE_KEY then SafeFields(rules, container, fields[1..], outputs)
    else
      && outputs != [] && outputs[0].key == fields[0].key
      && SafeField(rules, container, fields[0].key, fields[0].value, outputs[0].value)
      && SafeFields(rules, container, fields[1..], outputs[1..])
  }

  /**
    What stands for a field: a command or its arguments are scanned, under any
    other secret name nothing but a reference shows, a discriminator stays as
    it is, and the rest is scanned.
   */
  ghost predicate SafeField(rules: Rules, container: seq<Field>, key: string, value: Value, output: Value)
    decreases value, 2
  {
    if value.Arr? && rules.commandArgsKey(key) then output.Arr? && SafeArgs(rules, value.items, output.items, false)
    else if value.Str? && rules.commandKey(key) then SafeText(rules, value.text, output, true)
    else if rules.secretKey(key) && key != "authorizationReason" && !(value.Number? && key in AUDIT_COUNT_KEYS) then
      if value.Obj? && Refers(rules, value.fields) then SafeReference(rules, value.fields, output)
      else if value.Obj? && Binds(value.fields) then output == PlainBinding(REDACTED)
      else output == REDACTED
    else if value.Str? then
      if IsDiscriminator(rules, container, key, value.text) then output == value
      else SafeText(rules, value.text, output, key == "surface")
    else SafeValue(rules, value, output)
  }

  /** A public name of an event or a schema, in the field that declares it. */
  predicate IsDiscriminator(rules: Rules, container: seq<Field>, key: string, text: string) {
    || (key == "eventType" && rules.eventType(text) && Get(container, "schemaVersion") == Some(Number(1.0))
        && Get(container, "schema") == Some(Str("geetorus.prp.event.v1")))
    || ((key == "schema" || key == "runtimeSchema") && rules.publicSchema(text))
  }

  /** The parts of a reference that are not confidential, each in the form it must have. */
  predicate PublicPart(rules: Rules, kind: string, key: string, value: Value) {
    if key == "type" then value == Str(kind)
    else if key == "version" then
      value == Str("latest") || (value.Number? && value.number > 0.0 && value.number.Floor as real == value.number)
    else if kind == "secret_ref" then
      || (key == "secretId" && value.Str? && rules.referenceId(value.text))
      || (key == "projectionClass" && (value == Str("unclassified") || value == Str("class_3_static_lease")))
      || (key == "projectionAllowlistKey" && value == Null)
      || (key == "projectionAllowlistKey" && value.Str? && rules.allowlistKey(value.text) && rules.redactText(value.text) == value.text)
    else
      || (key == "key" && value.Str? && rules.userSecretKey(value.text) && rules.redactText(value.text) == value.text)
      || ((key == "required" || key == "allowMissingOverride") && value.Bool?)
  }

  /** The record names itself a reference of this kind, and what it refers to is public. */
  predicate RefersAs(rules: Rules, fields: seq<Field>, kind: string, name: string) {
    && Get(fields, "type") == Some(Str(kind))
    && Get(fields, name).Some? && PublicPart(rules, kind, name, Get(fields, name).value)
  }

  predicate Refers(rules: Rules, fields: seq<Field>) {
    RefersAs(rules, fields, "secret_ref", "secretId") || RefersAs(rules, fields, "user_secret_ref", "key")
  }

  predicate Binds(fields: seq<Field>) {
    Get(fields, "type") == Some(Str("plain")) && Get(fields, "value").Some?
  }

  /** The output holds exactly the public parts of the reference, each as it was. */
  ghost predicate SafeReference(rules: Rules, fields: seq<Field>, output: Value) {
    output.Obj? && forall key: string :: Get(output.fields, key) == PublicField(rules, fields, key)
  }

  function PublicField(rules: Rules, fields: seq<Field>, key: string): Option<Value> {
    var value := Get(fields, key);
    if value.Some? && PublicPart(rules, if RefersAs(rules, fields, "secret_ref", "secretId") then "secret_ref" else "user_secret_ref", key, value.value) then value else None
  }

  lemma GetJoined(a: seq<Field>, b: seq<Field>, key: string)
    ensures Get(a + b, key) == if Get(a, key).Some? then Get(a, key) else Get(b, key)
  {
    if a == [] {
      assert a + b == b;
    } else {
      assert (a + b)[1..] == a[1..] + b;
      if a[0].key != key {
        GetJoined(a[1..], b, key);
      }
    }
  }

  lemma SecretRefIsSafe(rules: Rules, fields: seq<Field>)
    requires IsSecretRef(rules, fields)
    ensures SafeReference(rules, fields, SanitizeSecretRef(rules, fields))
  {
    var class' := Get(fields, "projectionClass");
    var allow := Get(fields, "projectionAllowlistKey");
    var p0 := [Field("type", Str("secret_ref"))];
    var p1 := KeepIf("secretId", Get(fields, "secretId"), true);
    var p2 := SafeVersion(Get(fields, "version"));
    var p3 := KeepIf("projectionClass", class', class' in {Some(Str("unclassified")), Some(Str("class_3_static_lease"))});
    var p4 := KeepIf("projectionAllowlistKey", allow,
      allow == Some(Null)
      || (allow.Some? && allow.value.Str? && rules.allowlistKey(allow.value.text)
          && rules.redactText(allow.value.text) == allow.value.text));
    forall key: string ensures Get(p0 + p1 + p2 + p3 + p4, key) == PublicField(rules, fields, key) {
      GetJoined(p0 + p1 + p2 + p3, p4, key);
      GetJoined(p0 + p1 + p2, p3, key);
      GetJoined(p0 + p1, p2, key);
      GetJoined(p0, p1, key);
    }
  }

  lemma UserSecretRefIsSafe(rules: Rules, fields: seq<Field>)
    requires IsUserSecretRef(rules, fields)
    ensures SafeReference(rules, fields, SanitizeUserSecretRef(fields))
  {
    var required := Get(fields, "required");
    var allowMissing := Get(fields, "allowMissingOverride");
    var p0 := [Field("type", Str("user_secret_ref"))];
    var p1 := KeepIf("key", Get(fields, "key"), true);
    var p2 := SafeVersion(Get(fields, "version"));
    var p3 := KeepIf("required", required, required.Some? && required.value.Bool?);
    var p4 := KeepIf("allowMissingOverride", allowMissing, allowMissing.Some? && allowMissing.value.Bool?);
    forall key: string ensures Get(p0 + p1 + p2 + p3 + p4, key) == PublicField(rules, fields, key) {
      GetJoined(p0 + p1 + p2 + p3, p4, key);
      GetJoined(p0 + p1 + p2, p3, key);
      GetJoined(p0 + p1, p2, key);
      GetJoined(p0, p1, key);
    }
  }

  lemma {:induction false} ValueIsSafe(rules: Rules, value: Value)
    ensures SafeValue(rules, value, SanitizeValue(rules, value))
    decreases value, 1
  {
    match value
    case Arr(items) => ItemsAreSafe(rules, items);
    case Obj(fields) =>
      if IsSecretRef(rules, fields) {
        SecretRefIsSafe(rules, fields);
      } else if IsUserSecretRef(rules, fields) {
        UserSecretRefIsSafe(rules, fields);
      } else if IsPlainBinding(value) {
        GetSmaller(fields, "value");
        ValueIsSafe(rules, Get(fields, "value").value);
      } else {
        FieldsAreSafe(rules, fields, fields);
      }
    case _ =>
  }

  lemma {:induction false} ItemsAreSafe(rules: Rules, items: seq<Value>)
    ensures SafeItems(rules, items, SanitizeItems(rules, items))
    decreases items, 0
  {
    if items != [] {
      ValueIsSafe(rules, items[0]);
      ItemsAreSafe(rules, items[1..]);
      assert SanitizeItems(rules, items)[1..] == SanitizeItems(rules, items[1..]);
    }
  }

  lemma {:induction false} ArgsAreSafe(rules: Rules, args: seq<Value>, redactNext: bool)
    ensures SafeArgs(rules, args, SanitizeArgs(rules, args, redactNext), redactNext)
    decreases args, 0
  {
    if args != [] {
      var nextHidden := !redactNext && args[0].Str? && rules.secretFlag(args[0].text);
      ValueIsSafe(rules, args[0]);
      ArgsAreSafe(rules, args[1..], nextHidden);
      assert SanitizeArgs(rules, args, redactNext)[1..] == SanitizeArgs(rules, args[1..], nextHidden);
    }
  }

  lemma {:induction false} FieldsAreSafe(rules: Rules, container: seq<Field>, fields: seq<Field>)
    ensures SafeFields(rules, container, fields, SanitizeFields(rules, container, fields))
    decreases fields, 0
  {
    if fields != [] {
      FieldsStep(rules, container, fields, 0);
      assert fields[0..] == fields;
      FieldIsSafe(rules, container, fields[0].key, fields[0].value);
      FieldsAreSafe(rules, container, fields[1..]);
    }
  }

  lemma {:induction false} FieldIsSafe(rules: Rules, container: seq<Field>, key: string, value: Value)
    ensures SafeField(rules, container, key, value, SanitizeField(rules, container, key, value))
    decreases value, 2
  {
    ValueIsSafe(rules, value);
    if value.Arr? {
      ArgsAreSafe(rules, value.items, false);
    }
    if value.Obj? && IsSecretRef(rules, value.fields) {
      SecretRefIsSafe(rules, value.fields);
    } else if value.Obj? && IsUserSecretRef(rules, value.fields) {
      UserSecretRefIsSafe(rules, value.fields);
    }
  }

  /** Leaf by leaf, a sanitized record shows nothing it should not. */
  lemma RecordIsSafe(rules: Rules, record: seq<Field>)
    ensures SafeFields(rules, record, record, SanitizeRecord(rules, record))
  {
    FieldsAreSafe(rules, record, record);
  }

  // ------------------------------------------------------ what is left alone

  /** A text with no credential in it and not of token shape. */
  ghost predicate InnocentText(rules: Rules, text: string) {
    rules.redactText(text) == text && !rules.jwtValue(text)
  }

  /** No secret names, no bindings, and only innocent texts. */
  ghost predicate Innocent(rules: Rules, value: Value)
    decreases value, 1
  {
    match value
    case Str(text) => InnocentText(rules, text)
    case Arr(items) => forall i :: 0 <= i < |items| ==> Innocent(rules, items[i])
    case Obj(fields) => !IsReference(rules, value) && !IsPlainBinding(value) && InnocentFields(rules, fields)
    case _ => true
  }

  ghost predicate InnocentFields(rules: Rules, fields: seq<Field>)
    decreases fields, 0
  {
    forall i :: 0 <= i < |fields| ==>
      && fields[i].key != PROTOTYPE_KEY
      && !Guarded(rules, fields[i].key, fields[i].value)
      && !(rules.commandArgsKey(fields[i].key) && fields[i].value.Arr? && HasSecretFlag(rules, fields[i].value.items))
      && Innocent(rules, fields[i].value)
  }

  ghost predicate HasSecretFlag(rules: Rules, args: seq<Value>) {
    exists i :: 0 <= i < |args| && args[i].Str? && rules.secretFlag(args[i].text)
  }

  lemma {:induction false} InnocentStays(rules: Rules, value: Value)
    requires Innocent(rules, value)
    ensures SanitizeValue(rules, value) == value
    decreases value, 1
  {
    match value
    case Arr(items) => InnocentItemsStay(rules, items);
    case Obj(fields) => InnocentFieldsStay(rules, fields, fields);
    case _ =>
  }

  lemma {:induction false} InnocentItemsStay(rules: Rules, items: seq<Value>)
    requires forall i :: 0 <= i < |items| ==> Innocent(rules, items[i])
    ensures SanitizeItems(rules, items) == items
    decreases items, 0
  {
    if items != [] {
      InnocentStays(rules, items[0]);
      InnocentItemsStay(rules, items[1..]);
    }
  }

  lemma {:induction false} InnocentArgsStay(rules: Rules, args: seq<Value>)
    requires forall i :: 0 <= i < |args| ==> Innocent(rules, args[i])
    requires !HasSecretFlag(rules, args)
    ensures SanitizeArgs(rules, args, false) == args
    decreases args, 0
  {
    if args != [] {
      InnocentStays(rules, args[0]);
      assert forall i :: 0 <= i < |args| - 1 ==> args[1..][i] == args[i + 1];
      InnocentArgsStay(rules, args[1..]);
    }
  }

  lemma {:induction false} InnocentFieldsStay(rules: Rules, container: seq<Field>, fields: seq<Field>)
    requires InnocentFields(rules, fields)
    ensures SanitizeFields(rules, container, fields) == fields
    decreases fields, 0
  {
    if fields != [] {
      FieldsStep(rules, container, fields, 0);
      assert fields[0..] == fields;
      InnocentFieldStays(rules, container, fields[0].key, fields[0].value);
      InnocentFieldsStay(rules, container, fields[1..]);
    }
  }

  lemma {:induction false} InnocentFieldStays(rules: Rules, container: seq<Field>, key: string, value: Value)
    requires Innocent(rules, value) && !Guarded(rules, key, value)
    requires rules.commandArgsKey(key) && value.Arr? ==> !HasSecretFlag(rules, value.items)
    ensures SanitizeField(rules, container, key, value) == value
    decreases value, 2
  {
    InnocentStays(rules, value);
    if rules.commandArgsKey(key) && value.Arr? {
      InnocentArgsStay(rules, value.items);
    }
  }

  /** A payload with nothing confidential in it comes out as it went in. */
  lemma InnocentRecordStays(rules: Rules, record: seq<Field>)
    requires InnocentFields(rules, record)
    ensures SanitizeRecord(rules, record) == record
  {
    InnocentFieldsStay(rules, record, record);
  }

  // ------------------------------------------------------------- the program

  /** The loop over command arguments with its one-step memory. */
  lemma ArgsStep(rules: Rules, args: seq<Value>, i: nat, redactNext: bool)
    requires i < |args|
    ensures SanitizeArgs(rules, args[i..], redactNext) ==
      if redactNext then [REDACTED] + SanitizeArgs(rules, args[i + 1..], false)
      else if !args[i].Str? then [SanitizeValue(rules, args[i])] + SanitizeArgs(rules, args[i + 1..], false)
      else if rules.secretFlag(args[i].text) then [args[i]] + SanitizeArgs(rules, args[i + 1..], true)
      else [Str(rules.redactText(args[i].text))] + SanitizeArgs(rules, args[i + 1..], false)
  {
    assert args[i..][1..] == args[i + 1..];
  }

  lemma Regroup(outputs: seq<Value>, output: Value, tail: seq<Value>, rest: seq<Value>)
    requires rest == [output] + tail
    ensures outputs + rest == outputs + [output] + tail
  {
  }

  method SanitizeCommandArgs(rules: Rules, args: seq<Value>) returns (outputs: seq<Value>)
    ensures outputs == SanitizeArgs(rules, args, false)
  {
    outputs := [];
    var redactNext := false;
    for i := 0 to |args|
      invariant SanitizeArgs(rules, args, false) == outputs + SanitizeArgs(rules, args[i..], redactNext)
    {
      var arg := args[i];
      var output := REDACTED;
      ghost var rest := SanitizeArgs(rules, args[i..], redactNext);
      ArgsStep(rules, args, i, redactNext);
      if redactNext {
        redactNext := false;
      } else if !arg.Str? {
        output := SanitizeValue(rules, arg);
      } else if rules.secretFlag(arg.text) {
        redactNext := true;
        output := arg;
      } else {
        output := Str(rules.redactText(arg.text));
      }
      Regroup(outputs, output, SanitizeArgs(rules, args[i + 1..], redactNext), rest);
      outputs := outputs + [output];
    }
  }

  /** One entry, by the first of the source's cases that applies. */
  method SanitizeEntry(rules: Rules, record: seq<Field>, key: string, value: Value) returns (output: Value)
    ensures output == SanitizeField(rules, record, key, value)
  {
    if rules.commandArgsKey(key) && value.Arr? {
      var outputs := SanitizeCommandArgs(rules, value.items);
      return Arr(outputs);
    }
    if rules.commandKey(key) && value.Str? {
      return Str(rules.redactText(value.text));
    }
    if Guarded(rules, key, value) {
      return SanitizeGuarded(rules, value);
    }
    if IsEventDiscriminator(rules, record, key, value) || IsSchemaDiscriminator(rules, key, value) {
      return value;
    }
    if key == "surface" && value.Str? {
      return Str(rules.redactText(value.text));
    }
    if value.Str? && rules.jwtValue(value.text) {
      return REDACTED;
    }
    output := SanitizeValue(rules, value);
  }

  lemma AppendFields(redacted: seq<Field>, field: Field, rest: seq<Field>)
    ensures redacted + ([field] + rest) == redacted + [field] + rest
  {
  }

  /** The loop over the entries of a record, filling the redacted one. */
  method SanitizeRecordEntries(rules: Rules, record: seq<Field>) returns (redacted: seq<Field>)
    ensures redacted == SanitizeRecord(rules, record)
    ensures SameKeys(rules, record, redacted) && SafeFields(rules, record, record, redacted)
  {
    redacted := [];
    for i := 0 to |record|
      invariant SanitizeRecord(rules, record) == redacted + SanitizeFields(rules, record, record[i..])
    {
      FieldsStep(rules, record, record, i);
      var output := SanitizeEntry(rules, record, record[i].key, record[i].value);
      if record[i].key != PROTOTYPE_KEY {
        AppendFields(redacted, Field(record[i].key, output), SanitizeFields(rules, record, record[i + 1..]));
        redacted := redacted + [Field(record[i].key, output)];
      }
    }
    FieldsKeepShape(rules, record, record);
    RecordIsSafe(rules, record);
  }
}
