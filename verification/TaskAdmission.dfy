/**
 The admission rules on Task that compare an update with the object it replaces. CEL rules compare the stored
 JSON; the authority webhook compares the decoded Go values. A run is any sequence of updates that all the
 CEL rules accept; where the webhook takes part too, a lemma says so.
 */
module TaskAdmission {
  import opened Prelude
  import opened Json
  import opened GoSchema

  datatype FieldName =
    | Type | Image | Command | Args | Env | Timeout | Priority | RetryPolicy | WebhookURL | SecretRef
    | SessionRef | Resources | Execution | Schedule | TimeZone | ConcurrencyPolicy | StartingDeadlineSeconds
    | SuccessfulRunsHistoryLimit | FailedRunsHistoryLimit | Suspend | AI | AgentRef | Prompt | AgentRuntime
    | Workspace | PriorTaskRef | RequestedBy | Transaction

  /** A stored spec: has() is membership. */
  type TaskSpec = map<FieldName, Json>

  /** The fields of the status that are written once. */
  datatype Record = ExecutionOutcome | AgentExecutionBinding | SoulBinding

  /** A stored Task; `rest` is what else its status holds. */
  datatype Task = Task(spec: TaskSpec, records: map<Record, Json>, rest: Json)

  // ---------- the schema ----------

  /**
   What the rules do not depend on: how durations, quantities and instants are read, and the types of nested
   structs.
   */
  datatype Library = Library(
    duration: Json -> Json,
    quantity: Json -> Json,
    instant: Json -> Json,
    nested: FieldName -> Schema)

  /** In the whole spec, only spec.resources.claims is a keyed list, and there is no instant. */
  ghost predicate Valid(lib: Library) {
    forall f :: Exact(lib.nested(f))
  }

  const TEXT := Scalar(Str(""))

  function ClaimSchema(): Schema {
    Struct(Field("name", TEXT, Field("request", TEXT, NoFields)))
  }

  function QuantitySchema(lib: Library): Schema {
    Dict(Parsed(Str("0"), lib.quantity))
  }

  /** corev1.ResourceRequirements, a struct held by value. */
  function ResourceFields(lib: Library): Fields {
    Field("claims", Keyed(ClaimSchema(), "name"),
      Field("limits", QuantitySchema(lib), Field("requests", QuantitySchema(lib), NoFields)))
  }

  function SchemaOf(lib: Library, f: FieldName): Schema {
    match f
    case Type => TEXT
    case Image => TEXT
    case WebhookURL => TEXT
    case Schedule => TEXT
    case ConcurrencyPolicy => TEXT
    case Prompt => TEXT
    case Command => Slice(TEXT)
    case Args => Slice(TEXT)
    case Env => Slice(lib.nested(Env))
    case Timeout => Pointer(Parsed(Str("0s"), lib.duration))
    case Priority => Pointer(Scalar(Number(0)))
    case StartingDeadlineSeconds => Pointer(Scalar(Number(0)))
    case SuccessfulRunsHistoryLimit => Pointer(Scalar(Number(0)))
    case FailedRunsHistoryLimit => Pointer(Scalar(Number(0)))
    case TimeZone => Pointer(TEXT)
    case Suspend => Pointer(Scalar(Bool(false)))
    case Resources => Struct(ResourceFields(lib))
    case _ => Pointer(lib.nested(f))
  }

  function Get(spec: TaskSpec, f: FieldName): Option<Json> {
    if f in spec then Some(spec[f]) else None
  }

  /** What the API server stores: every field typed, the required type present. */
  predicate Stored(lib: Library, spec: TaskSpec) {
    Type in spec && forall f :: f in spec ==> WellTyped(SchemaOf(lib, f), spec[f])
  }

  /** Equality of one field as CEL sees it, has() included. */
  predicate SameField(lib: Library, a: TaskSpec, b: TaskSpec, f: FieldName) {
    Same(SchemaOf(lib, f), Get(a, f), Get(b, f))
  }

  lemma ResourcesAreSound(lib: Library)
    ensures Sound(Struct(ResourceFields(lib))) && Timeless(Struct(ResourceFields(lib)))
  {
    var fs := ResourceFields(lib);
    assert Exact(QuantitySchema(lib)) && Exact(ClaimSchema());
    ExactIsSound(QuantitySchema(lib));
    ExactIsSound(ClaimSchema());
    assert HasScalar(ClaimSchema().fields, "name");
    assert SoundFields(fs.rest.rest) && TimelessFields(fs.rest.rest);
    assert SoundFields(fs.rest) && TimelessFields(fs.rest);
  }

  lemma SchemaIsSound(lib: Library, f: FieldName)
    requires Valid(lib)
    ensures Sound(SchemaOf(lib, f)) && Timeless(SchemaOf(lib, f))
    ensures f != Resources ==> Exact(SchemaOf(lib, f))
  {
    if f == Resources {
      ResourcesAreSound(lib);
    } else {
      ExactIsSound(SchemaOf(lib, f));
    }
  }

  /** Every field but resources is frozen as a document when CEL finds it the same. */
  lemma SameFieldIsIdentity(lib: Library, a: TaskSpec, b: TaskSpec, f: FieldName)
    requires Valid(lib) && Stored(lib, a) && Stored(lib, b) && f != Resources && SameField(lib, a, b, f)
    ensures Get(a, f) == Get(b, f)
  {
    SchemaIsSound(lib, f);
    if f in a {
      ExactIsIdentity(SchemaOf(lib, f), a[f], b[f]);
    }
  }

  // ---------- the CEL rules ----------

  predicate IsAgent(s: TaskSpec) {
    Type in s && s[Type] == Str("agent")
  }

  function EffectiveIntent(s: TaskSpec): Json {
    if Workspace in s && s[Workspace].Object? && "intent" in s[Workspace].fields then s[Workspace].fields["intent"]
    else if IsAgent(s) then Str("read")
    else if Type in s then s[Type]
    else Null
  }

  const IDENTITY_FIELDS := {RequestedBy, Transaction, Type, SessionRef}
  const AGENT_FIELDS := {Prompt, AgentRef, AgentRuntime, Workspace, Timeout}

  /** The transition rules on TaskSpec. */
  predicate SpecRules(lib: Library, self: TaskSpec, prior: TaskSpec) {
    && (forall f :: f in IDENTITY_FIELDS ==> SameField(lib, self, prior, f))
    && (IsAgent(self) ==> forall f :: f in AGENT_FIELDS ==> SameField(lib, self, prior, f))
    && EffectiveIntent(self) == EffectiveIntent(prior)
  }

  const COUNT := Scalar(Number(0))

  /** metav1.Time, which CEL compares as an instant. */
  function TimeSchema(lib: Library): Schema {
    Instant(Str("0001-01-01T00:00:00Z"), lib.instant)
  }

  function OutcomeFields(lib: Library): Fields {
    Field("phase", TEXT,
    Field("attempt", COUNT,
    Field("resultRef", Pointer(Struct(Field("available", Scalar(Bool(false)), NoFields))),
    Field("recordedAt", TimeSchema(lib),
    Field("message", TEXT, NoFields)))))
  }

  function BoundTaskFields(): Fields {
    Field("uid", TEXT, Field("namespaceUID", TEXT, Field("boundSpecGeneration", COUNT, NoFields)))
  }

  function BoundAgentFields(): Fields {
    Field("namespace", TEXT, Field("name", TEXT, Field("uid", TEXT, Field("generation", COUNT, NoFields))))
  }

  function SnapshotFields(): Fields {
    Field("id", TEXT, Field("digest", TEXT, Field("schemaVersion", COUNT, NoFields)))
  }

  function BoundRuntimeFields(): Fields {
    Field("name", TEXT, Field("uid", TEXT, Field("generation", COUNT, NoFields)))
  }

  function BindingFields(lib: Library): Fields {
    Field("schemaVersion", COUNT,
    Field("contractVersion", TEXT,
    Field("backend", TEXT,
    Field("bindingDigest", TEXT,
    Field("task", Struct(BoundTaskFields()),
    Field("agent", Pointer(Struct(BoundAgentFields())),
    Field("snapshot", Struct(SnapshotFields()),
    Field("runtimeType", TEXT,
    Field("runtimeRef", Pointer(Struct(BoundRuntimeFields())),
    Field("runtimeProfileDigest", TEXT,
    Field("runtimeProfileDigestSchemaVersion", COUNT,
    Field("boundAt", TimeSchema(lib), NoFields))))))))))))
  }

  function SoulFields(): Fields {
    Field("taskGeneration", COUNT,
    Field("agentUID", TEXT,
    Field("agentGeneration", COUNT,
    Field("soulDigest", TEXT,
    Field("promptDigest", TEXT,
    Field("inputsDigest", TEXT, NoFields))))))
  }

  function RecordFields(lib: Library, r: Record): Fields {
    match r
    case ExecutionOutcome => OutcomeFields(lib)
    case AgentExecutionBinding => BindingFields(lib)
    case SoulBinding => SoulFields()
  }

  function RecordSchema(lib: Library, r: Record): Schema {
    Struct(RecordFields(lib, r))
  }

  /** The field that holds the record's instant; a soul binding has none. */
  function StampKey(r: Record): string {
    match r
    case ExecutionOutcome => "recordedAt"
    case AgentExecutionBinding => "boundAt"
    case SoulBinding => ""
  }

  /** How the record spells its instant. */
  function Stamp(r: Record, j: Json): Option<Json> {
    if j.Object? then Member(j.fields, StampKey(r)) else None
  }

  lemma PlainFieldsAreExact()
    ensures Exact(Struct(BoundTaskFields())) && Exact(Struct(BoundAgentFields())) && Exact(Struct(SnapshotFields()))
    ensures Exact(Struct(BoundRuntimeFields()))
    ensures Exact(Struct(Field("available", Scalar(Bool(false)), NoFields)))
  {
    var agent := BoundAgentFields();
    assert ExactFields(agent.rest.rest.rest.rest);
    assert ExactFields(agent.rest.rest.rest);
    assert ExactFields(agent.rest.rest);
    assert ExactFields(BoundTaskFields().rest.rest) && ExactFields(BoundTaskFields().rest);
    assert ExactFields(SnapshotFields().rest.rest) && ExactFields(SnapshotFields().rest);
    assert ExactFields(BoundRuntimeFields().rest.rest) && ExactFields(BoundRuntimeFields().rest);
  }

  lemma OutcomeHasOneInstant(lib: Library)
    ensures OneInstant(OutcomeFields(lib), "recordedAt")
  {
    PlainFieldsAreExact();
    assert |"recordedAt"| == 10 && |"phase"| == 5 && |"attempt"| == 7 && |"resultRef"| == 9 && |"message"| == 7;
    var fs := OutcomeFields(lib);
    assert OneInstant(fs.rest.rest.rest.rest, "recordedAt");
    assert OneInstant(fs.rest.rest.rest, "recordedAt");
    assert OneInstant(fs.rest.rest, "recordedAt");
    assert OneInstant(fs.rest, "recordedAt");
  }

  lemma BindingNames()
    ensures |"boundAt"| == 7 && |"schemaVersion"| == 13 && |"contractVersion"| == 15 && "backend" != "boundAt"
    ensures |"bindingDigest"| == 13 && |"task"| == 4 && |"agent"| == 5 && |"snapshot"| == 8 && |"runtimeType"| == 11
    ensures |"runtimeRef"| == 10 && |"runtimeProfileDigest"| == 20 && |"runtimeProfileDigestSchemaVersion"| == 33
  {
    assert "backend"[1] == 'a' && "boundAt"[1] == 'o';
  }

  lemma ExactParts()
    ensures Exact(TEXT) && Exact(COUNT) && Exact(Struct(BoundTaskFields())) && Exact(Struct(SnapshotFields()))
    ensures Exact(Pointer(Struct(BoundAgentFields()))) && Exact(Pointer(Struct(BoundRuntimeFields())))
  {
    PlainFieldsAreExact();
  }

  lemma BindingHasOneInstant(lib: Library)
    ensures OneInstant(BindingFields(lib), "boundAt")
  {
    hide Exact;
    assert Exact(TEXT) && Exact(COUNT) && Exact(Pointer(Struct(BoundAgentFields()))) by {
      ExactParts();
    }
    ExactParts();
    BindingNames();
    var fs := BindingFields(lib);
    var tail := fs.rest.rest.rest.rest.rest.rest;
    assert OneInstant(tail.rest.rest.rest.rest.rest, "boundAt");
    assert OneInstant(tail.rest.rest.rest.rest, "boundAt");
    assert OneInstant(tail.rest.rest.rest, "boundAt");
    assert OneInstant(tail.rest.rest, "boundAt");
    assert OneInstant(tail.rest, "boundAt");
    assert OneInstant(tail, "boundAt");
    assert OneInstant(fs.rest.rest.rest.rest.rest, "boundAt");
    assert OneInstant(fs.rest.rest.rest.rest, "boundAt");
    assert OneInstant(fs.rest.rest.rest, "boundAt");
    assert OneInstant(fs.rest.rest, "boundAt");
    assert OneInstant(fs.rest, "boundAt");
  }

  lemma SoulHasNoInstant()
    ensures OneInstant(SoulFields(), "") && !Declares(SoulFields(), "")
  {
    var fs := SoulFields();
    assert OneInstant(fs.rest.rest.rest.rest.rest, "") && !Declares(fs.rest.rest.rest.rest.rest, "");
    assert OneInstant(fs.rest.rest.rest.rest, "") && !Declares(fs.rest.rest.rest.rest, "");
    assert OneInstant(fs.rest.rest.rest, "") && !Declares(fs.rest.rest.rest, "");
    assert OneInstant(fs.rest.rest, "") && !Declares(fs.rest.rest, "");
    assert OneInstant(fs.rest, "") && !Declares(fs.rest, "");
  }

  lemma RecordHasOneInstant(lib: Library, r: Record)
    ensures OneInstant(RecordFields(lib, r), StampKey(r))
    ensures r == SoulBinding ==> !Declares(RecordFields(lib, r), StampKey(r))
  {
    hide OneInstant, OutcomeFields, BindingFields, SoulFields, Declares;
    match r
    case ExecutionOutcome => OutcomeHasOneInstant(lib);
    case AgentExecutionBinding => BindingHasOneInstant(lib);
    case SoulBinding => SoulHasNoInstant();
  }

  /** What the API server stores of a whole Task. */
  predicate StoredTask(lib: Library, t: Task) {
    Stored(lib, t.spec) && forall r :: r in t.records ==> WellTyped(RecordSchema(lib, r), t.records[r])
  }

  /** A write-once rule. Equality in CEL with an absent field on the left is an evaluation error, which rejects. */
  predicate Kept(lib: Library, self: Task, prior: Task, r: Record) {
    r in prior.records ==> r in self.records && CelEqual(RecordSchema(lib, r), self.records[r], prior.records[r])
  }

  /** The transition rules on TaskStatus. */
  predicate StatusRules(lib: Library, self: Task, prior: Task) {
    && Kept(lib, self, prior, ExecutionOutcome)
    && Kept(lib, self, prior, AgentExecutionBinding)
    && Kept(lib, self, prior, SoulBinding)
  }

  /** The fields the execution-authority rule compares one by one. */
  const LISTED := {
    Type, Image, Command, Args, Env, Timeout, Priority, RetryPolicy, WebhookURL, SecretRef, SessionRef, Resources,
    Execution, Schedule, TimeZone, ConcurrencyPolicy, StartingDeadlineSeconds, SuccessfulRunsHistoryLimit,
    FailedRunsHistoryLimit, AI, AgentRef, Prompt, AgentRuntime, Workspace, PriorTaskRef, RequestedBy, Transaction}

  predicate FieldsMatch(lib: Library, self: TaskSpec, prior: TaskSpec) {
    forall f :: f in LISTED ==> SameField(lib, self, prior, f)
  }

  /** self.spec == oldSelf.spec. */
  predicate SpecEqual(lib: Library, self: TaskSpec, prior: TaskSpec) {
    forall f :: SameField(lib, self, prior, f)
  }

  /** The execution-authority rule on Task. Its guard on a missing status never applies: status is a value field. */
  predicate AuthorityRule(lib: Library, self: Task, prior: Task) {
    || (AgentExecutionBinding !in prior.records && SoulBinding !in prior.records)
    || SpecEqual(lib, self.spec, prior.spec)
    || (AgentExecutionBinding !in prior.records && FieldsMatch(lib, self.spec, prior.spec))
  }

  predicate Accepted(lib: Library, self: Task, prior: Task) {
    && SpecRules(lib, self.spec, prior.spec)
    && StatusRules(lib, self, prior)
    && AuthorityRule(lib, self, prior)
  }

  /** The rule's list leaves out the control field suspend and nothing else. */
  lemma MatchIsPerField(lib: Library, a: TaskSpec, b: TaskSpec)
    ensures FieldsMatch(lib, a, b) <==> forall f :: f != Suspend ==> SameField(lib, a, b, f)
  {
    hide SameField;
    assert forall f :: f in LISTED <==> f != Suspend;
  }

  // ---------- the Go comparison ----------

  type GoSpec = map<FieldName, Go>

  function Decoded(lib: Library, spec: TaskSpec): GoSpec {
    map f: FieldName :: Decode(SchemaOf(lib, f), Get(spec, f))
  }

  /** ExecutionInputs: the decoded spec without its control fields. */
  function ExecutionInputs(lib: Library, spec: TaskSpec): GoSpec {
    Decoded(lib, spec)[Suspend := Nil]
  }

  function DecodedRecord(lib: Library, t: Task, r: Record): Go {
    Decode(Pointer(RecordSchema(lib, r)), if r in t.records then Some(t.records[r]) else None)
  }

  /**
   The authority webhook: taskSpecUnchangedForAuthority, applied where taskHasExecutionAuthority holds of the
   old object, and the two bindings write-once as Go values.
   */
  predicate WebhookRule(lib: Library, self: Task, prior: Task) {
    && (if AgentExecutionBinding in prior.records then Decoded(lib, self.spec) == Decoded(lib, prior.spec)
        else if SoulBinding in prior.records then ExecutionInputs(lib, self.spec) == ExecutionInputs(lib, prior.spec)
        else true)
    && (forall r :: r in {AgentExecutionBinding, SoulBinding} && r in prior.records ==>
          DecodedRecord(lib, self, r) == DecodedRecord(lib, prior, r))
  }

  lemma InputsArePerField(lib: Library, a: TaskSpec, b: TaskSpec)
    ensures ExecutionInputs(lib, a) == ExecutionInputs(lib, b) <==>
            forall f :: f != Suspend ==> Decode(SchemaOf(lib, f), Get(a, f)) == Decode(SchemaOf(lib, f), Get(b, f))
  {
    hide SchemaOf;
    if ExecutionInputs(lib, a) == ExecutionInputs(lib, b) {
      forall f | f != Suspend
        ensures Decode(SchemaOf(lib, f), Get(a, f)) == Decode(SchemaOf(lib, f), Get(b, f))
      {
        assert ExecutionInputs(lib, a)[f] == ExecutionInputs(lib, b)[f];
      }
    }
  }

  /** What decoding does not show of a spec's inputs: zeros written out and unusual spellings. */
  predicate SpelledAlike(lib: Library, a: TaskSpec, b: TaskSpec) {
    forall f :: f != Suspend ==>
      SpellingOf(SchemaOf(lib, f), Get(a, f), false) == SpellingOf(SchemaOf(lib, f), Get(b, f), false)
  }

  /** The claims of a spec, in their order. */
  function Claims(spec: TaskSpec): seq<Json> {
    if Resources in spec && spec[Resources].Object? && "claims" in spec[Resources].fields
       && spec[Resources].fields["claims"].Array?
    then spec[Resources].fields["claims"].items
    else []
  }

  function ClaimName(claim: Json): Option<Json> {
    if claim.Object? then Member(claim.fields, "name") else None
  }

  /** The claims stand in the same order, by name. */
  predicate ClaimsInOrder(a: TaskSpec, b: TaskSpec) {
    && |Claims(a)| == |Claims(b)|
    && forall i :: 0 <= i < |Claims(a)| ==> ClaimName(Claims(a)[i]) == ClaimName(Claims(b)[i])
  }

  // ---------- how the two comparisons relate ----------

  lemma EqualInputs(a: TaskSpec, b: TaskSpec)
    requires forall f :: f != Suspend ==> Get(a, f) == Get(b, f)
    ensures a - {Suspend} == b - {Suspend}
  {
    forall f
      ensures f in a - {Suspend} <==> f in b - {Suspend}
      ensures f in a - {Suspend} ==> (a - {Suspend})[f] == (b - {Suspend})[f]
    {
      assert f != Suspend ==> Get(a, f) == Get(b, f);
    }
  }

  lemma SameInputs(a: TaskSpec, b: TaskSpec, f: FieldName)
    requires a - {Suspend} == b - {Suspend} && f != Suspend
    ensures Get(a, f) == Get(b, f)
  {
    assert f in a <==> f in a - {Suspend};
    assert f in b <==> f in b - {Suspend};
    assert f in a ==> (a - {Suspend})[f] == a[f];
    assert f in b ==> (b - {Suspend})[f] == b[f];
  }

  /** What both comparisons accept is exactly an update that leaves the stored inputs alone. */
  lemma BothAcceptIdentity(lib: Library, a: TaskSpec, b: TaskSpec)
    requires Valid(lib) && Stored(lib, a) && Stored(lib, b)
    ensures FieldsMatch(lib, a, b) && ExecutionInputs(lib, a) == ExecutionInputs(lib, b) <==>
            a - {Suspend} == b - {Suspend}
  {
    hide SchemaOf, FieldsMatch, ExecutionInputs;
    MatchIsPerField(lib, a, b);
    InputsArePerField(lib, a, b);
    if FieldsMatch(lib, a, b) && ExecutionInputs(lib, a) == ExecutionInputs(lib, b) {
      forall f | f != Suspend
        ensures Get(a, f) == Get(b, f)
      {
        SchemaIsSound(lib, f);
        assert SameField(lib, a, b, f);
        ComparisonsMeet(SchemaOf(lib, f), Get(a, f), Get(b, f));
      }
      EqualInputs(a, b);
    }
    if a - {Suspend} == b - {Suspend} {
      forall f | f != Suspend
        ensures SameField(lib, a, b, f) && Get(a, f) == Get(b, f)
      {
        SameInputs(a, b, f);
        SameReflexive(SchemaOf(lib, f), Get(a, f));
      }
    }
  }

  /** When the Go inputs are equal, the rule accepts exactly if the stored inputs are spelled alike. */
  lemma EqualInputsMatch(lib: Library, a: TaskSpec, b: TaskSpec)
    requires Valid(lib) && Stored(lib, a) && Stored(lib, b)
    requires ExecutionInputs(lib, a) == ExecutionInputs(lib, b)
    ensures FieldsMatch(lib, a, b) <==> SpelledAlike(lib, a, b)
  {
    hide SchemaOf, FieldsMatch, ExecutionInputs;
    MatchIsPerField(lib, a, b);
    InputsArePerField(lib, a, b);
    forall f | f != Suspend
      ensures SameField(lib, a, b, f) <==>
              SpellingOf(SchemaOf(lib, f), Get(a, f), false) == SpellingOf(SchemaOf(lib, f), Get(b, f), false)
    {
      SchemaIsSound(lib, f);
      EqualValuesCompare(SchemaOf(lib, f), Get(a, f), Get(b, f));
    }
  }

  lemma SameResourcesSameClaims(a: TaskSpec, b: TaskSpec)
    requires Get(a, Resources) == Get(b, Resources)
    ensures Claims(a) == Claims(b)
  {
    assert Resources in a <==> Resources in b;
  }

  /** The keys of the resources struct. */
  lemma ResourceKeys()
    ensures "claims" != "limits" && "claims" != "requests" && "limits" != "requests" && "name" != "request"
  {
    assert "claims"[0] == 'c' && "limits"[0] == 'l' && "requests"[0] == 'r' && |"name"| != |"request"|;
  }

  lemma ResourceShape(lib: Library, x: Json, y: Json)
    requires var s := Struct(ResourceFields(lib)); WellTyped(s, x) && WellTyped(s, y) && CelEqual(s, x, y)
    ensures x.Object? && y.Object? && SameFields(ResourceFields(lib), x.fields, y.fields)
    ensures WellTypedFields(ResourceFields(lib), x.fields) && WellTypedFields(ResourceFields(lib), y.fields)
    ensures forall key :: key in x.fields ==> Declares(ResourceFields(lib), key)
    ensures forall key :: key in y.fields ==> Declares(ResourceFields(lib), key)
  {
  }

  lemma QuantitiesAreIdentical(lib: Library, a: Option<Json>, b: Option<Json>)
    requires Typed(QuantitySchema(lib), a) && Typed(QuantitySchema(lib), b) && Same(QuantitySchema(lib), a, b)
    ensures a == b
  {
    if a.Some? {
      ExactIsIdentity(QuantitySchema(lib), a.value, b.value);
    }
  }

  lemma ResourceParts(lib: Library, x: Json, y: Json)
    requires var s := Struct(ResourceFields(lib)); WellTyped(s, x) && WellTyped(s, y) && CelEqual(s, x, y)
    ensures Same(Keyed(ClaimSchema(), "name"), Member(x.fields, "claims"), Member(y.fields, "claims"))
    ensures Typed(Keyed(ClaimSchema(), "name"), Member(x.fields, "claims"))
    ensures Typed(Keyed(ClaimSchema(), "name"), Member(y.fields, "claims"))
    ensures Member(x.fields, "limits") == Member(y.fields, "limits")
    ensures Member(x.fields, "requests") == Member(y.fields, "requests")
    ensures forall key :: key in x.fields || key in y.fields ==> key in {"claims", "limits", "requests"}
  {
    var fs := ResourceFields(lib);
    hide CelEqual, WellTyped;
    assert SameFields(fs, x.fields, y.fields) && WellTypedFields(fs, x.fields) && WellTypedFields(fs, y.fields) by {
      ResourceShape(lib, x, y);
    }
    ResourceShape(lib, x, y);
    ResourceKeys();
    var claims := fs;
    var limits := claims.rest;
    var requests := limits.rest;
    assert SameFields(limits, x.fields, y.fields) && SameFields(requests, x.fields, y.fields);
    assert WellTypedFields(limits, x.fields) && WellTypedFields(limits, y.fields);
    assert WellTypedFields(requests, x.fields) && WellTypedFields(requests, y.fields);
    QuantitiesAreIdentical(lib, Member(x.fields, "limits"), Member(y.fields, "limits"));
    QuantitiesAreIdentical(lib, Member(x.fields, "requests"), Member(y.fields, "requests"));
    forall key | key in x.fields || key in y.fields
      ensures key in {"claims", "limits", "requests"}
    {
      assert Declares(claims, key) && !Declares(requests.rest, key);
      assert Declares(claims, key) ==> key == "claims" || Declares(limits, key);
      assert Declares(limits, key) ==> key == "limits" || Declares(requests, key);
    }
  }

  lemma OrderedClaims(x: Json, y: Json)
    requires var s := Keyed(ClaimSchema(), "name"); WellTyped(s, x) && WellTyped(s, y) && CelEqual(s, x, y)
    requires forall i :: 0 <= i < |x.items| ==> ClaimName(x.items[i]) == ClaimName(y.items[i])
    ensures x == y
  {
    forall i | 0 <= i < |x.items|
      ensures x.items[i].fields["name"] == y.items[i].fields["name"]
    {
      assert ClaimName(x.items[i]) == ClaimName(y.items[i]);
    }
    SameKeysSameList(ClaimSchema(), "name", x.items, y.items);
  }

  /** Resources that CEL finds the same, with the claims in order, are the same document. */
  lemma OrderedResources(lib: Library, a: TaskSpec, b: TaskSpec)
    requires Valid(lib) && Stored(lib, a) && Stored(lib, b)
    requires SameField(lib, a, b, Resources) && ClaimsInOrder(a, b)
    ensures Get(a, Resources) == Get(b, Resources)
  {
    if Resources in a {
      var x, y := a[Resources], b[Resources];
      assert SchemaOf(lib, Resources) == Struct(ResourceFields(lib));
      ResourceParts(lib, x, y);
      if "claims" in x.fields {
        OrderedClaims(x.fields["claims"], y.fields["claims"]);
      }
      forall key
        ensures Member(x.fields, key) == Member(y.fields, key)
      {
      }
      EqualMaps(x.fields, y.fields);
    }
  }

  /** When the rule accepts, the Go inputs are equal exactly if the claims kept their order. */
  lemma MatchingInputsAgree(lib: Library, a: TaskSpec, b: TaskSpec)
    requires Valid(lib) && Stored(lib, a) && Stored(lib, b)
    ensures FieldsMatch(lib, a, b) ==>
              (ExecutionInputs(lib, a) == ExecutionInputs(lib, b) <==> ClaimsInOrder(a, b))
  {
    hide SchemaOf, FieldsMatch, ExecutionInputs, Claims;
    MatchIsPerField(lib, a, b);
    InputsArePerField(lib, a, b);
    if FieldsMatch(lib, a, b) && ExecutionInputs(lib, a) == ExecutionInputs(lib, b) {
      BothAcceptIdentity(lib, a, b);
      SameInputs(a, b, Resources);
      SameResourcesSameClaims(a, b);
    }
    if FieldsMatch(lib, a, b) && ClaimsInOrder(a, b) {
      forall f | f != Suspend
        ensures Get(a, f) == Get(b, f)
      {
        assert SameField(lib, a, b, f);
        if f == Resources {
          OrderedResources(lib, a, b);
        } else {
          SameFieldIsIdentity(lib, a, b, f);
        }
      }
    }
  }

  // ---------- where they differ ----------

  /** The fields of a value type, whose zero value decodes like an absent field. */
  const VALUE_FIELDS := {Image, WebhookURL, Schedule, Prompt, Resources}

  function Zero(f: FieldName): Json {
    if f == Resources then Object(map[]) else Str("")
  }

  lemma ZeroDecodes(lib: Library, f: FieldName)
    requires f in VALUE_FIELDS
    ensures WellTyped(SchemaOf(lib, f), Zero(f))
    ensures Decode(SchemaOf(lib, f), Some(Zero(f))) == Decode(SchemaOf(lib, f), None)
  {
    if f == Resources {
      var fs := ResourceFields(lib);
      assert WellTypedFields(fs.rest.rest, map[]);
      assert WellTypedFields(fs.rest, map[]);
    }
  }

  /** Writing out a zero value, an empty prompt for example, changes no input, and the rule refuses it. */
  lemma ZeroIsRefused(lib: Library, spec: TaskSpec, f: FieldName)
    requires Valid(lib) && Stored(lib, spec) && f in VALUE_FIELDS && f !in spec
    ensures var u := spec[f := Zero(f)];
            && Stored(lib, u)
            && ExecutionInputs(lib, u) == ExecutionInputs(lib, spec)
            && !FieldsMatch(lib, u, spec)
  {
    hide ExecutionInputs;
    var u := spec[f := Zero(f)];
    ZeroDecodes(lib, f);
    assert Stored(lib, u);
    forall g | g != Suspend
      ensures Decode(SchemaOf(lib, g), Get(u, g)) == Decode(SchemaOf(lib, g), Get(spec, g))
    {
      assert g != f ==> Get(u, g) == Get(spec, g);
    }
    InputsArePerField(lib, u, spec);
    assert !SameField(lib, u, spec, f);
    MatchIsPerField(lib, u, spec);
  }

  /** The spec with other claims. */
  function WithClaims(spec: TaskSpec, claims: seq<Json>): TaskSpec
    requires Resources in spec && spec[Resources].Object?
  {
    spec[Resources := Object(spec[Resources].fields["claims" := Array(claims)])]
  }

  function Swapped<T>(xs: seq<T>, i: nat, j: nat): seq<T>
    requires i < |xs| && j < |xs|
  {
    xs[i := xs[j]][j := xs[i]]
  }

  lemma QuantitiesStay(lib: Library, m: map<string, Json>, n: map<string, Json>)
    requires WellTypedFields(ResourceFields(lib).rest, m)
    requires Member(n, "limits") == Member(m, "limits") && Member(n, "requests") == Member(m, "requests")
    ensures WellTypedFields(ResourceFields(lib).rest, n) && SameFields(ResourceFields(lib).rest, n, m)
  {
    var fs := ResourceFields(lib).rest;
    FieldsReflexive(fs, m);
    assert WellTypedFields(fs.rest, m) && SameFields(fs.rest, m, m);
    assert WellTypedFields(fs.rest, n) && SameFields(fs.rest, n, m);
  }

  lemma SwappedKeysDistinct(xs: seq<Json>, i: nat, j: nat)
    requires i < j < |xs| && DistinctKeys(xs, "name")
    ensures DistinctKeys(Swapped(xs, i, j), "name")
    ensures forall k :: 0 <= k < |xs| ==> Swapped(xs, i, j)[k] in xs
  {
  }

  /** A list of which every item stands somewhere in another of its length is CEL-equal to it. */
  lemma Rearranged(item: Schema, key: string, xs: seq<Json>, ys: seq<Json>)
    requires WellTyped(Keyed(item, key), Array(xs)) && |xs| == |ys|
    requires forall i :: 0 <= i < |xs| ==> xs[i] in ys
    ensures CelEqual(Keyed(item, key), Array(xs), Array(ys))
  {
    forall i | 0 <= i < |xs|
      ensures HasCounterpart(item, key, xs[i], ys)
    {
      CelReflexive(item, xs[i]);
      var j :| 0 <= j < |ys| && ys[j] == xs[i];
      assert SameKey(xs[i], ys[j], key);
    }
  }

  lemma SwappedResources(lib: Library, x: Json, i: nat, j: nat)
    requires WellTyped(Struct(ResourceFields(lib)), x) && "claims" in x.fields && x.fields["claims"].Array?
    requires i < j < |x.fields["claims"].items|
    ensures var y := Object(x.fields["claims" := Array(Swapped(x.fields["claims"].items, i, j))]);
            WellTyped(Struct(ResourceFields(lib)), y) && CelEqual(Struct(ResourceFields(lib)), y, x)
    ensures ClaimName(x.fields["claims"].items[i]) != ClaimName(x.fields["claims"].items[j])
  {
    var xs := x.fields["claims"].items;
    var ys := Swapped(xs, i, j);
    var y := Object(x.fields["claims" := Array(ys)]);
    var fs := ResourceFields(lib);
    var claims := Keyed(ClaimSchema(), "name");
    assert WellTypedFields(fs, x.fields) && WellTypedFields(fs.rest, x.fields);
    assert WellTypedFields(fs.rest.rest, x.fields);
    assert WellTyped(claims, x.fields["claims"]);
    assert DistinctKeys(xs, "name");
    SwappedKeysDistinct(xs, i, j);
    assert WellTyped(claims, Array(ys));
    Rearranged(ClaimSchema(), "name", ys, xs);
    ResourceKeys();
    QuantitiesStay(lib, x.fields, y.fields);
    assert Declares(fs, "claims");
  }

  /** Swapping two claims changes the inputs, and the rule accepts it whatever is bound. */
  lemma SwappedClaimsAreAccepted(lib: Library, spec: TaskSpec, i: nat, j: nat)
    requires Valid(lib) && Stored(lib, spec) && i < j < |Claims(spec)|
    ensures var u := WithClaims(spec, Swapped(Claims(spec), i, j));
            && Stored(lib, u)
            && SpecEqual(lib, u, spec) && FieldsMatch(lib, u, spec)
            && ExecutionInputs(lib, u) != ExecutionInputs(lib, spec)
  {
    hide ExecutionInputs;
    var claims := Claims(spec);
    var u := WithClaims(spec, Swapped(claims, i, j));
    SwappedResources(lib, spec[Resources], i, j);
    assert Stored(lib, u);
    forall f
      ensures SameField(lib, u, spec, f)
    {
      if f != Resources {
        assert Get(u, f) == Get(spec, f);
        SameReflexive(SchemaOf(lib, f), Get(spec, f));
      }
    }
    assert Claims(u)[i] == claims[j];
    assert ClaimName(claims[i]) != ClaimName(claims[j]) by {
      SwappedResources(lib, spec[Resources], i, j);
    }
    MatchingInputsAgree(lib, u, spec);
  }

  predicate SameButForOrder(x: Json, y: Json) {
    && x.Object? && y.Object?
    && x.fields - {"claims"} == y.fields - {"claims"}
    && ("claims" in x.fields <==> "claims" in y.fields)
    && ("claims" in x.fields && "claims" in y.fields ==>
          && x.fields["claims"].Array? && y.fields["claims"].Array?
          && multiset(x.fields["claims"].items) == multiset(y.fields["claims"].items))
  }

  /** Apart from suspend, `a` is `b` with its claims rearranged. */
  predicate OnlyClaimsMoved(a: TaskSpec, b: TaskSpec) {
    && (forall f :: f != Suspend && f != Resources ==> Get(a, f) == Get(b, f))
    && (Resources in a <==> Resources in b)
    && (Resources in a && Resources in b ==> SameButForOrder(a[Resources], b[Resources]))
  }

  lemma ClaimsRearranged(x: Json, y: Json)
    requires var s := Keyed(ClaimSchema(), "name"); WellTyped(s, x) && WellTyped(s, y) && CelEqual(s, x, y)
    ensures x.Array? && y.Array? && multiset(x.items) == multiset(y.items)
  {
    KeyedIsRearranged(ClaimSchema(), "name", x.items, y.items);
  }

  lemma SameRest(m: map<string, Json>, n: map<string, Json>, key: string)
    ensures m - {key} == n - {key} <==> forall k :: k != key ==> Member(m, k) == Member(n, k)
  {
    if m - {key} == n - {key} {
      forall k | k != key
        ensures Member(m, k) == Member(n, k)
      {
        assert k in m <==> k in m - {key};
        assert k in n <==> k in n - {key};
        assert k in m ==> (m - {key})[k] == m[k];
        assert k in n ==> (n - {key})[k] == n[k];
      }
    }
    if forall k :: k != key ==> Member(m, k) == Member(n, k) {
      forall k
        ensures k in m - {key} <==> k in n - {key}
        ensures k in m - {key} && k in n - {key} ==> (m - {key})[k] == (n - {key})[k]
      {
        assert k != key ==> Member(m, k) == Member(n, k);
      }
    }
  }

  lemma MovedResources(lib: Library, x: Json, y: Json)
    requires var s := Struct(ResourceFields(lib)); WellTyped(s, x) && WellTyped(s, y) && CelEqual(s, x, y)
    ensures SameButForOrder(x, y)
  {
    ResourceParts(lib, x, y);
    hide WellTyped, CelEqual;
    assert x.Object? && y.Object? by {
      ResourceShape(lib, x, y);
    }
    forall key | key != "claims"
      ensures Member(x.fields, key) == Member(y.fields, key)
    {
    }
    SameRest(x.fields, y.fields, "claims");
    var cx, cy := Member(x.fields, "claims"), Member(y.fields, "claims");
    if cx.Some? {
      ClaimsRearranged(cx.value, cy.value);
    }
  }

  lemma MovedIsEqual(lib: Library, x: Json, y: Json)
    requires WellTyped(Struct(ResourceFields(lib)), x) && WellTyped(Struct(ResourceFields(lib)), y)
    requires SameButForOrder(x, y)
    ensures CelEqual(Struct(ResourceFields(lib)), x, y)
  {
    var fs := ResourceFields(lib);
    ResourceKeys();
    SameRest(x.fields, y.fields, "claims");
    assert WellTypedFields(fs, x.fields) && WellTypedFields(fs, y.fields) && WellTypedFields(fs.rest, y.fields);
    QuantitiesStay(lib, y.fields, x.fields);
    if "claims" in x.fields {
      var xs, ys := x.fields["claims"].items, y.fields["claims"].items;
      assert |xs| == |multiset(xs)| && |ys| == |multiset(ys)|;
      forall i | 0 <= i < |xs|
        ensures xs[i] in ys
      {
        assert xs[i] in multiset(xs);
      }
      Rearranged(ClaimSchema(), "name", xs, ys);
    }
  }

  /** The rule accepts exactly the updates that rearrange claims and change suspend. */
  lemma RuleAcceptsExactly(lib: Library, a: TaskSpec, b: TaskSpec)
    requires Valid(lib) && Stored(lib, a) && Stored(lib, b)
    ensures FieldsMatch(lib, a, b) <==> OnlyClaimsMoved(a, b)
  {
    hide FieldsMatch, SameButForOrder;
    MatchIsPerField(lib, a, b);
    assert SchemaOf(lib, Resources) == Struct(ResourceFields(lib));
    if FieldsMatch(lib, a, b) {
      forall f | f != Suspend && f != Resources
        ensures Get(a, f) == Get(b, f)
      {
        SameFieldIsIdentity(lib, a, b, f);
      }
      assert SameField(lib, a, b, Resources);
      if Resources in a {
        MovedResources(lib, a[Resources], b[Resources]);
      }
    }
    if OnlyClaimsMoved(a, b) {
      forall f | f != Suspend
        ensures SameField(lib, a, b, f)
      {
        if f != Resources {
          SameReflexive(SchemaOf(lib, f), Get(b, f));
        } else if Resources in a {
          MovedIsEqual(lib, a[Resources], b[Resources]);
        }
      }
    }
  }

  /**
   The rule and the comparison of ExecutionInputs agree on an update exactly if neither difference is in play:
   rearranged claims kept their order, and equal inputs are spelled alike.
   */
  lemma RuleAgreesWithInputs(lib: Library, a: TaskSpec, b: TaskSpec)
    requires Valid(lib) && Stored(lib, a) && Stored(lib, b)
    ensures (FieldsMatch(lib, a, b) <==> ExecutionInputs(lib, a) == ExecutionInputs(lib, b)) <==>
            && (OnlyClaimsMoved(a, b) ==> ClaimsInOrder(a, b))
            && (ExecutionInputs(lib, a) == ExecutionInputs(lib, b) ==> SpelledAlike(lib, a, b))
  {
    hide FieldsMatch, ExecutionInputs, ClaimsInOrder, SpelledAlike, OnlyClaimsMoved;
    RuleAcceptsExactly(lib, a, b);
    MatchingInputsAgree(lib, a, b);
    if ExecutionInputs(lib, a) == ExecutionInputs(lib, b) {
      EqualInputsMatch(lib, a, b);
    }
  }

  /** Records that are not written satisfy their rules. */
  lemma RecordsStay(lib: Library, t: Task, spec: TaskSpec)
    requires StoredTask(lib, t)
    ensures StatusRules(lib, t.(spec := spec), t)
  {
    forall r | r in t.records
      ensures CelEqual(RecordSchema(lib, r), t.records[r], t.records[r])
    {
      CelReflexive(RecordSchema(lib, r), t.records[r]);
    }
  }

  predicate HasAuthority(t: Task) {
    AgentExecutionBinding in t.records || SoulBinding in t.records
  }

  lemma SameInputsAndSuspend(lib: Library, a: TaskSpec, b: TaskSpec)
    requires ExecutionInputs(lib, a) == ExecutionInputs(lib, b) && Get(a, Suspend) == Get(b, Suspend)
    ensures Decoded(lib, a) == Decoded(lib, b)
  {
    hide SchemaOf;
    InputsArePerField(lib, a, b);
    forall f
      ensures Decoded(lib, a)[f] == Decoded(lib, b)[f]
    {
    }
  }

  /** On a Task with recorded authority, the webhook lets a written-out zero pass and the CEL rules refuse it. */
  lemma ZeroSplitsTheChecks(lib: Library, t: Task, f: FieldName)
    requires Valid(lib) && Stored(lib, t.spec) && f in VALUE_FIELDS && f !in t.spec && HasAuthority(t)
    ensures var u := t.(spec := t.spec[f := Zero(f)]); WebhookRule(lib, u, t) && !Accepted(lib, u, t)
  {
    hide FieldsMatch, ExecutionInputs, SpecRules, Stored, Decoded;
    var u := t.spec[f := Zero(f)];
    ZeroIsRefused(lib, t.spec, f);
    assert !SameField(lib, u, t.spec, f);
    SameInputsAndSuspend(lib, u, t.spec);
  }

  lemma DifferentInputs(lib: Library, a: TaskSpec, b: TaskSpec)
    requires ExecutionInputs(lib, a) != ExecutionInputs(lib, b)
    ensures Decoded(lib, a) != Decoded(lib, b)
  {
  }

  /** On a Task with recorded authority, the CEL rules let swapped claims pass and the webhook refuses them. */
  lemma SwapSplitsTheChecks(lib: Library, t: Task, i: nat, j: nat)
    requires Valid(lib) && StoredTask(lib, t) && i < j < |Claims(t.spec)| && HasAuthority(t)
    ensures var u := t.(spec := WithClaims(t.spec, Swapped(Claims(t.spec), i, j)));
            Accepted(lib, u, t) && !WebhookRule(lib, u, t)
  {
    hide ExecutionInputs, Stored, SameField, Decoded, Swapped, StatusRules, DecodedRecord;
    RecordsStay(lib, t, WithClaims(t.spec, Swapped(Claims(t.spec), i, j)));
    var u := WithClaims(t.spec, Swapped(Claims(t.spec), i, j));
    SwappedClaimsAreAccepted(lib, t.spec, i, j);
    assert EffectiveIntent(u) == EffectiveIntent(t.spec);
    DifferentInputs(lib, u, t.spec);
  }

  // ---------- what holds of every accepted run ----------

  predicate IsAcceptedRun(lib: Library, run: seq<Task>) {
    && (forall i :: 0 <= i < |run| ==> StoredTask(lib, run[i]))
    && (forall i :: 0 <= i < |run| - 1 ==> Accepted(lib, run[i + 1], run[i]))
  }

  lemma MatchTransitive(lib: Library, a: TaskSpec, b: TaskSpec, c: TaskSpec)
    ensures SpecEqual(lib, a, b) && SpecEqual(lib, b, c) ==> SpecEqual(lib, a, c)
    ensures FieldsMatch(lib, a, b) && FieldsMatch(lib, b, c) ==> FieldsMatch(lib, a, c)
  {
    forall f | SameField(lib, a, b, f) && SameField(lib, b, c, f)
      ensures SameField(lib, a, c, f)
    {
      SameTransitive(SchemaOf(lib, f), Get(a, f), Get(b, f), Get(c, f));
    }
  }

  lemma SpecReflexive(lib: Library, a: TaskSpec)
    requires Stored(lib, a)
    ensures SpecEqual(lib, a, a) && FieldsMatch(lib, a, a)
  {
    forall f
      ensures SameField(lib, a, a, f)
    {
      SameReflexive(SchemaOf(lib, f), Get(a, f));
    }
  }

  /** A recorded outcome or binding is constant, as CEL compares it. */
  lemma {:induction false} RecordIsFrozen(lib: Library, run: seq<Task>, i: nat, j: nat, r: Record)
    requires IsAcceptedRun(lib, run) && i <= j < |run|
    ensures Kept(lib, run[j], run[i], r)
    decreases j - i
  {
    hide CelEqual, SpecRules, AuthorityRule, RecordSchema, Stored;
    if r in run[i].records {
      if i == j {
        CelReflexive(RecordSchema(lib, r), run[i].records[r]);
      } else {
        RecordIsFrozen(lib, run, i, j - 1, r);
        assert Accepted(lib, run[j], run[j - 1]);
        assert Kept(lib, run[j], run[j - 1], r);
        CelTransitive(RecordSchema(lib, r), run[j].records[r], run[j - 1].records[r], run[i].records[r]);
      }
    }
  }

  /**
   So its Go value is constant, and the stored document is unchanged exactly if its instant is still spelled
   the same way. A soul binding has no instant: its document is constant.
   */
  lemma RecordKeepsValue(lib: Library, run: seq<Task>, i: nat, j: nat, r: Record)
    requires IsAcceptedRun(lib, run) && i <= j < |run| && r in run[i].records
    ensures r in run[j].records && DecodedRecord(lib, run[j], r) == DecodedRecord(lib, run[i], r)
    ensures run[j].records[r] == run[i].records[r] <==> Stamp(r, run[j].records[r]) == Stamp(r, run[i].records[r])
    ensures r == SoulBinding ==> run[j].records[r] == run[i].records[r]
  {
    hide OneInstant, RecordFields, SpecRules, AuthorityRule, Stored, StampKey;
    RecordIsFrozen(lib, run, i, j, r);
    RecordHasOneInstant(lib, r);
    var x, y := run[j].records[r], run[i].records[r];
    assert WellTyped(RecordSchema(lib, r), x) && WellTyped(RecordSchema(lib, r), y);
    OneInstantCompares(RecordFields(lib, r), StampKey(r), x, y);
  }

  /** The rule of a record accepts exactly another spelling of its instant. */
  lemma RecordRuleAcceptsExactly(lib: Library, r: Record, x: Json, y: Json)
    requires WellTyped(RecordSchema(lib, r), x) && WellTyped(RecordSchema(lib, r), y)
    ensures CelEqual(RecordSchema(lib, r), x, y) <==> Respelled(RecordFields(lib, r), StampKey(r), x.fields, y.fields)
  {
    hide OneInstant, RecordFields, StampKey;
    RecordHasOneInstant(lib, r);
    OneInstantIsRespelled(RecordFields(lib, r), StampKey(r), x, y);
  }

  /** The Task with the instant of one record spelled differently. */
  function Respell(t: Task, r: Record, stamp: Json): Task
    requires r in t.records && t.records[r].Object?
  {
    t.(records := t.records[r := Object(t.records[r].fields[StampKey(r) := stamp])])
  }

  lemma SpecStays(lib: Library, t: Task)
    requires StoredTask(lib, t)
    ensures SpecRules(lib, t.spec, t.spec)
    ensures forall records: map<Record, Json> :: AuthorityRule(lib, t.(records := records), t)
  {
    SpecReflexive(lib, t.spec);
  }

  lemma RecordReadsInstants(lib: Library, r: Record, x: Json, y: Json)
    requires lib.instant(x) == lib.instant(y)
    ensures SameInstant(RecordFields(lib, r), StampKey(r), x, y)
  {
    match r
    case ExecutionOutcome =>
      var fs := OutcomeFields(lib);
      assert SameInstant(fs.rest.rest.rest.rest, "recordedAt", x, y);
      assert SameInstant(fs.rest.rest.rest, "recordedAt", x, y);
      assert SameInstant(fs.rest.rest, "recordedAt", x, y);
      assert SameInstant(fs.rest, "recordedAt", x, y);
    case AgentExecutionBinding =>
      var fs := BindingFields(lib);
      var tail := fs.rest.rest.rest.rest.rest.rest;
      assert SameInstant(tail.rest.rest.rest.rest.rest, "boundAt", x, y);
      assert SameInstant(tail.rest.rest.rest.rest, "boundAt", x, y);
      assert SameInstant(tail.rest.rest.rest, "boundAt", x, y);
      assert SameInstant(tail.rest.rest, "boundAt", x, y);
      assert SameInstant(tail.rest, "boundAt", x, y);
      assert SameInstant(tail, "boundAt", x, y);
      assert SameInstant(fs.rest.rest.rest.rest.rest, "boundAt", x, y);
      assert SameInstant(fs.rest.rest.rest.rest, "boundAt", x, y);
      assert SameInstant(fs.rest.rest.rest, "boundAt", x, y);
      assert SameInstant(fs.rest.rest, "boundAt", x, y);
      assert SameInstant(fs.rest, "boundAt", x, y);
    case SoulBinding =>
      var fs := SoulFields();
      assert SameInstant(fs.rest.rest.rest.rest.rest, "", x, y);
      assert SameInstant(fs.rest.rest.rest.rest, "", x, y);
      assert SameInstant(fs.rest.rest.rest, "", x, y);
      assert SameInstant(fs.rest.rest, "", x, y);
      assert SameInstant(fs.rest, "", x, y);
  }

  lemma RespelledRecord(lib: Library, r: Record, y: Json, stamp: Json)
    requires WellTyped(RecordSchema(lib, r), y) && StampKey(r) in y.fields && !stamp.Null?
    requires lib.instant(stamp) == lib.instant(y.fields[StampKey(r)])
    ensures var x := Object(y.fields[StampKey(r) := stamp]);
            && WellTyped(RecordSchema(lib, r), x) && CelEqual(RecordSchema(lib, r), x, y)
            && Decode(RecordSchema(lib, r), Some(x)) == Decode(RecordSchema(lib, r), Some(y))
  {
    var fs, key := RecordFields(lib, r), StampKey(r);
    RecordHasOneInstant(lib, r);
    RecordReadsInstants(lib, r, y.fields[key], stamp);
    hide OneInstant, RecordFields, StampKey, SameInstant;
    RespelledFields(fs, key, y.fields, stamp);
    OneInstantCompares(fs, key, Object(y.fields[key := stamp]), y);
  }

  lemma RespelledTask(lib: Library, t: Task, r: Record, stamp: Json)
    requires StoredTask(lib, t) && r in t.records && Stamp(r, t.records[r]).Some? && !stamp.Null?
    requires lib.instant(stamp) == lib.instant(Stamp(r, t.records[r]).value)
    ensures var u := Respell(t, r, stamp);
            && StoredTask(lib, u) && StatusRules(lib, u, t)
            && forall q :: q in t.records ==> DecodedRecord(lib, u, q) == DecodedRecord(lib, t, q)
  {
    hide RecordSchema, Stored, StampKey, WellTyped, CelEqual;
    var u := Respell(t, r, stamp);
    RespelledRecord(lib, r, t.records[r], stamp);
    assert StoredTask(lib, u);
    forall q | q in t.records
      ensures CelEqual(RecordSchema(lib, q), u.records[q], t.records[q])
      ensures DecodedRecord(lib, u, q) == DecodedRecord(lib, t, q)
    {
      if q != r {
        CelReflexive(RecordSchema(lib, q), t.records[q]);
      }
    }
  }

  /** Rules and webhook let every other spelling of a recorded instant pass, and the stored record changes. */
  lemma RespellingIsAccepted(lib: Library, t: Task, r: Record, stamp: Json)
    requires StoredTask(lib, t) && r in t.records && Stamp(r, t.records[r]).Some? && !stamp.Null?
    requires stamp != Stamp(r, t.records[r]).value
    requires lib.instant(stamp) == lib.instant(Stamp(r, t.records[r]).value)
    ensures var u := Respell(t, r, stamp);
            && StoredTask(lib, u) && Accepted(lib, u, t) && WebhookRule(lib, u, t)
            && u.records[r] != t.records[r]
            && DecodedRecord(lib, u, r) == DecodedRecord(lib, t, r)
  {
    hide RecordSchema, SpecRules, AuthorityRule, Stored, StampKey, Decoded, ExecutionInputs, StatusRules, WellTyped;
    var u := Respell(t, r, stamp);
    assert u.records[r].fields[StampKey(r)] == stamp;
    RespelledTask(lib, t, r, stamp);
    SpecStays(lib, t);
  }

  lemma EqualMatches(lib: Library, a: TaskSpec, b: TaskSpec)
    ensures SpecEqual(lib, a, b) ==> FieldsMatch(lib, a, b)
  {
  }

  /** One accepted update of a Task with recorded authority. */
  lemma AcceptedMatches(lib: Library, a: Task, b: Task)
    requires Accepted(lib, a, b)
    ensures AgentExecutionBinding in b.records ==> SpecEqual(lib, a.spec, b.spec)
    ensures SoulBinding in b.records ==> FieldsMatch(lib, a.spec, b.spec)
  {
    hide SpecEqual, FieldsMatch, SpecRules, StatusRules;
    EqualMatches(lib, a.spec, b.spec);
  }

  /** Once agentExecutionBinding is recorded, it is constant and so is the spec, as CEL compares them. */
  lemma {:induction false} BoundSpecIsFrozen(lib: Library, run: seq<Task>, i: nat, j: nat)
    requires IsAcceptedRun(lib, run) && i <= j < |run| && AgentExecutionBinding in run[i].records
    ensures Kept(lib, run[j], run[i], AgentExecutionBinding)
    ensures SpecEqual(lib, run[j].spec, run[i].spec)
    decreases j - i
  {
    hide SpecEqual, FieldsMatch, Accepted, Stored, CelEqual, RecordSchema, WellTyped;
    RecordIsFrozen(lib, run, i, j, AgentExecutionBinding);
    if i == j {
      SpecReflexive(lib, run[i].spec);
    } else {
      BoundSpecIsFrozen(lib, run, i, j - 1);
      AcceptedMatches(lib, run[j], run[j - 1]);
      MatchTransitive(lib, run[j].spec, run[j - 1].spec, run[i].spec);
    }
  }

  /** So the stored spec of a bound Task, suspend included, changes at most in the order of its claims. */
  lemma BoundSpecKeepsDocuments(lib: Library, run: seq<Task>, i: nat, j: nat)
    requires Valid(lib) && IsAcceptedRun(lib, run) && i <= j < |run| && AgentExecutionBinding in run[i].records
    ensures OnlyClaimsMoved(run[j].spec, run[i].spec)
    ensures Get(run[j].spec, Suspend) == Get(run[i].spec, Suspend)
  {
    hide OnlyClaimsMoved, SchemaOf;
    BoundSpecIsFrozen(lib, run, i, j);
    assert FieldsMatch(lib, run[j].spec, run[i].spec);
    RuleAcceptsExactly(lib, run[j].spec, run[i].spec);
    SameFieldIsIdentity(lib, run[j].spec, run[i].spec, Suspend);
  }

  /** Once soulBinding is recorded, its document is constant, and so are the execution inputs as CEL compares them. */
  lemma {:induction false} SoulBoundInputsAreFrozen(lib: Library, run: seq<Task>, i: nat, j: nat)
    requires IsAcceptedRun(lib, run) && i <= j < |run| && SoulBinding in run[i].records
    ensures SoulBinding in run[j].records && run[j].records[SoulBinding] == run[i].records[SoulBinding]
    ensures FieldsMatch(lib, run[j].spec, run[i].spec)
    decreases j - i
  {
    hide SpecEqual, FieldsMatch, Accepted, Stored, DecodedRecord, Stamp, RecordSchema, WellTyped;
    RecordKeepsValue(lib, run, i, j, SoulBinding);
    if i == j {
      SpecReflexive(lib, run[i].spec);
    } else {
      SoulBoundInputsAreFrozen(lib, run, i, j - 1);
      AcceptedMatches(lib, run[j], run[j - 1]);
      MatchTransitive(lib, run[j].spec, run[j - 1].spec, run[i].spec);
    }
  }

  /** So the stored spec of a soul-bound Task changes at most in suspend and in the order of its claims. */
  lemma SoulBoundSpecKeepsDocuments(lib: Library, run: seq<Task>, i: nat, j: nat)
    requires Valid(lib) && IsAcceptedRun(lib, run) && i <= j < |run| && SoulBinding in run[i].records
    ensures OnlyClaimsMoved(run[j].spec, run[i].spec)
  {
    SoulBoundInputsAreFrozen(lib, run, i, j);
    RuleAcceptsExactly(lib, run[j].spec, run[i].spec);
  }

  /** A run that the authority webhook accepts as well. */
  predicate IsAuthorizedRun(lib: Library, run: seq<Task>) {
    IsAcceptedRun(lib, run) && forall i :: 0 <= i < |run| - 1 ==> WebhookRule(lib, run[i + 1], run[i])
  }

  lemma BoundStepKeepsDocument(lib: Library, a: TaskSpec, b: TaskSpec)
    requires Valid(lib) && Stored(lib, a) && Stored(lib, b)
    requires SpecEqual(lib, a, b) && Decoded(lib, a) == Decoded(lib, b)
    ensures a == b
  {
    forall f
      ensures Get(a, f) == Get(b, f)
    {
      SchemaIsSound(lib, f);
      assert SameField(lib, a, b, f);
      assert Decoded(lib, a)[f] == Decoded(lib, b)[f];
      ComparisonsMeet(SchemaOf(lib, f), Get(a, f), Get(b, f));
    }
    forall f
      ensures f in a <==> f in b
      ensures f in a && f in b ==> a[f] == b[f]
    {
      assert Get(a, f) == Get(b, f);
    }
  }

  /** One update that both checks accept keeps the documents. */
  lemma BothChecksKeepDocuments(lib: Library, a: Task, b: Task)
    requires Valid(lib) && Stored(lib, a.spec) && Stored(lib, b.spec)
    ensures Accepted(lib, a, b) && WebhookRule(lib, a, b) ==>
              && (AgentExecutionBinding in b.records ==> a.spec == b.spec)
              && (SoulBinding in b.records ==> a.spec - {Suspend} == b.spec - {Suspend})
  {
    hide Stored, SpecEqual, FieldsMatch, ExecutionInputs, Decoded, DecodedRecord, Accepted;
    if !(Accepted(lib, a, b) && WebhookRule(lib, a, b)) {
      return;
    }
    AcceptedMatches(lib, a, b);
    if AgentExecutionBinding in b.records {
      BoundStepKeepsDocument(lib, a.spec, b.spec);
    } else if SoulBinding in b.records {
      BothAcceptIdentity(lib, a.spec, b.spec);
    }
  }

  /** The rule and the webhook together freeze the stored documents themselves, claim order included. */
  lemma {:induction false} BothChecksFreezeDocuments(lib: Library, run: seq<Task>, i: nat, j: nat)
    requires Valid(lib) && IsAuthorizedRun(lib, run) && i <= j < |run|
    ensures AgentExecutionBinding in run[i].records ==> run[j].spec == run[i].spec
    ensures SoulBinding in run[i].records ==> run[j].spec - {Suspend} == run[i].spec - {Suspend}
    decreases j - i
  {
    hide Stored, Accepted, WebhookRule, CelEqual;
    if i < j {
      BothChecksFreezeDocuments(lib, run, i, j - 1);
      RecordIsFrozen(lib, run, i, j - 1, AgentExecutionBinding);
      RecordIsFrozen(lib, run, i, j - 1, SoulBinding);
      BothChecksKeepDocuments(lib, run[j], run[j - 1]);
    }
  }

  function WithSuspend(spec: TaskSpec, suspend: Option<bool>): TaskSpec {
    if suspend.Some? then spec[Suspend := Bool(suspend.value)] else spec - {Suspend}
  }

  lemma SuspendIsNoInput(lib: Library, spec: TaskSpec, suspend: Option<bool>)
    requires Stored(lib, spec)
    ensures var u := WithSuspend(spec, suspend); SpecRules(lib, u, spec) && FieldsMatch(lib, u, spec)
  {
    hide SchemaOf, Same, FieldsMatch;
    var u := WithSuspend(spec, suspend);
    forall f | f != Suspend
      ensures SameField(lib, u, spec, f)
    {
      assert Get(u, f) == Get(spec, f);
      SameReflexive(SchemaOf(lib, f), Get(spec, f));
    }
    MatchIsPerField(lib, u, spec);
    assert EffectiveIntent(u) == EffectiveIntent(spec);
  }

  lemma SuspendDiffers(lib: Library, spec: TaskSpec, suspend: Option<bool>)
    requires Stored(lib, spec) && WithSuspend(spec, suspend) != spec
    ensures !SameField(lib, WithSuspend(spec, suspend), spec, Suspend)
  {
    var u := WithSuspend(spec, suspend);
    assert Get(u, Suspend) == Get(spec, Suspend) ==> u == spec;
  }

  /** A change of suspend alone is accepted exactly while no execution route is bound. */
  lemma SuspendMayChange(lib: Library, t: Task, suspend: Option<bool>)
    requires Valid(lib) && StoredTask(lib, t) && WithSuspend(t.spec, suspend) != t.spec
    ensures Accepted(lib, t.(spec := WithSuspend(t.spec, suspend)), t) <==> AgentExecutionBinding !in t.records
  {
    hide SpecRules, FieldsMatch, WithSuspend, Stored, SameField, StatusRules;
    RecordsStay(lib, t, WithSuspend(t.spec, suspend));
    var u := WithSuspend(t.spec, suspend);
    SuspendIsNoInput(lib, t.spec, suspend);
    SuspendDiffers(lib, t.spec, suspend);
    assert !SpecEqual(lib, u, t.spec);
  }

  /** Who asked, under which transaction, in which session, with which type and intent. */
  predicate SameIdentity(a: TaskSpec, b: TaskSpec) {
    && (forall f :: f in IDENTITY_FIELDS ==> Get(a, f) == Get(b, f))
    && (IsAgent(b) ==> forall f :: f in AGENT_FIELDS ==> Get(a, f) == Get(b, f))
    && EffectiveIntent(a) == EffectiveIntent(b)
  }

  lemma SameTypeSameKind(a: TaskSpec, b: TaskSpec)
    requires Get(a, Type) == Get(b, Type)
    ensures IsAgent(a) <==> IsAgent(b)
  {
  }

  lemma RulesKeepIdentity(lib: Library, a: TaskSpec, b: TaskSpec)
    requires Valid(lib) && Stored(lib, a) && Stored(lib, b) && SpecRules(lib, a, b)
    ensures SameIdentity(a, b)
  {
    hide SchemaOf, SameField, Stored, EffectiveIntent, Get;
    forall f | f in IDENTITY_FIELDS
      ensures Get(a, f) == Get(b, f)
    {
      SameFieldIsIdentity(lib, a, b, f);
    }
    SameTypeSameKind(a, b);
    if IsAgent(b) {
      forall f | f in AGENT_FIELDS
        ensures Get(a, f) == Get(b, f)
      {
        SameFieldIsIdentity(lib, a, b, f);
      }
    }
  }

  /** The identity of a Task is constant over every run. */
  lemma {:induction false} IdentityIsFrozen(lib: Library, run: seq<Task>, i: nat, j: nat)
    requires Valid(lib) && IsAcceptedRun(lib, run) && i <= j < |run|
    ensures SameIdentity(run[j].spec, run[i].spec)
    decreases j - i
  {
    hide AuthorityRule, Stored, SpecRules, EffectiveIntent, StatusRules;
    if i < j {
      IdentityIsFrozen(lib, run, i, j - 1);
      assert Accepted(lib, run[j], run[j - 1]);
      RulesKeepIdentity(lib, run[j].spec, run[j - 1].spec);
      assert Get(run[j - 1].spec, Type) == Get(run[i].spec, Type);
    }
  }
}
