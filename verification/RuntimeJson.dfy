/**
 The JSON forms of AgentRuntimeSpec and AgentCLIRuntime: encoders that keep an omitted tool list apart from
 an empty one, and the strict decoder in front of the ordinary one.
 A Go slice is None when nil, so that nil and empty stay different.
 */
module RuntimeJson {
  import opened Prelude
  import opened Json

  type int32 = x: int | -0x8000_0000 <= x < 0x8000_0000

  type Strings = Option<seq<string>>

  datatype AgentRuntimeSpec = AgentRuntimeSpec(
    maxTurns: Option<int32>,
    allowedTools: Strings,
    disallowedTools: Strings,
    allowBash: Option<bool>)

  datatype AgentToolbox = AgentToolbox(image: string, mountPath: string, pathEntries: Strings)

  datatype AgentCLIRuntime = AgentCLIRuntime(
    kind: string,
    contractVersion: Option<string>,
    runtimeRef: Option<string>,
    defaultMaxTurns: Option<int32>,
    defaultAllowedTools: Strings,
    defaultAllowBash: Option<bool>,
    defaultReasoningEffort: string,
    toolboxes: Option<seq<AgentToolbox>>)

  const HARNESS_V2 := "orka.harness.v2"

  // ---------- values ----------

  function Put(fields: map<string, Json>, key: string, value: Option<Json>): map<string, Json> {
    if value.None? then fields else fields[key := value.value]
  }

  function Get(fields: map<string, Json>, key: string): Option<Json> {
    if key in fields then Some(fields[key]) else None
  }

  function Texts(xs: seq<string>): (items: seq<Json>)
    ensures |items| == |xs| && forall i :: 0 <= i < |xs| ==> items[i] == Str(xs[i])
  {
    seq(|xs|, i requires 0 <= i < |xs| => Str(xs[i]))
  }

  function EncodeInt(n: Option<int32>): Option<Json> {
    if n.None? then None else Some(Number(n.value))
  }

  function EncodeBool(b: Option<bool>): Option<Json> {
    if b.None? then None else Some(Bool(b.value))
  }

  /** A string with omitempty. */
  function EncodeText(s: string): Option<Json> {
    if s == "" then None else Some(Str(s))
  }

  /** A pointer to a string, which omitempty drops only when nil. */
  function EncodePointer(s: Option<string>): Option<Json> {
    if s.None? then None else Some(Str(s.value))
  }

  /** A pointer to a slice, which omitempty drops only when nil. */
  function EncodeList(xs: Strings): Option<Json> {
    if xs.None? then None else Some(Array(Texts(xs.value)))
  }

  /** A slice with omitempty, which drops an empty one too. */
  function EncodeNonEmpty(xs: Strings): Option<Json> {
    if xs.None? || xs.value == [] then None else Some(Array(Texts(xs.value)))
  }

  /** Decoding: None is an error; absent and null leave the zero value. */
  function DecodeInt(j: Option<Json>): Option<Option<int32>> {
    match j
    case None => Some(None)
    case Some(Null) => Some(None)
    case Some(Number(n)) => if -0x8000_0000 <= n < 0x8000_0000 then Some(Some(n)) else None
    case Some(_) => None
  }

  function DecodeBool(j: Option<Json>): Option<Option<bool>> {
    match j
    case None => Some(None)
    case Some(Null) => Some(None)
    case Some(Bool(b)) => Some(Some(b))
    case Some(_) => None
  }

  function DecodeText(j: Option<Json>): Option<string> {
    match j
    case None => Some("")
    case Some(Null) => Some("")
    case Some(Str(s)) => Some(s)
    case Some(_) => None
  }

  function DecodeTexts(items: seq<Json>): (r: Option<seq<string>>) {
    if items == [] then Some([])
    else
      var first, rest := DecodeText(Some(items[0])), DecodeTexts(items[1..]);
      if first.None? || rest.None? then None else Some([first.value] + rest.value)
  }

  function DecodeList(j: Option<Json>): Option<Strings> {
    match j
    case None => Some(None)
    case Some(Null) => Some(None)
    case Some(Array(items)) =>
      var xs := DecodeTexts(items);
      if xs.None? then None else Some(xs)
    case Some(_) => None
  }

  /** A contract version: any value but the supported one is refused. */
  function DecodeContract(j: Option<Json>): Option<Option<string>> {
    match j
    case None => Some(None)
    case Some(Null) => Some(None)
    case Some(Str(s)) => if s == HARNESS_V2 then Some(Some(s)) else None
    case Some(_) => None
  }

  lemma {:induction false} TextsDecode(xs: seq<string>)
    ensures DecodeTexts(Texts(xs)) == Some(xs)
  {
    if xs != [] {
      assert Texts(xs)[1..] == Texts(xs[1..]);
      TextsDecode(xs[1..]);
      assert xs == [xs[0]] + xs[1..];
    }
  }

  /** What omitempty does to a slice over a round trip: an empty one comes back nil. */
  function Dropped<T>(xs: Option<seq<T>>): Option<seq<T>> {
    if xs.Some? && |xs.value| == 0 then None else xs
  }

  // ---------- the strict decoder ----------

  /** Simple case folding, as far as it can reach an ASCII letter. */
  function Fold(c: char): char {
    if 'A' <= c <= 'Z' then c - 'A' + 'a'
    else if c == '\U{017F}' then 's'
    else if c == '\U{212A}' then 'k'
    else c
  }

  /** strings.EqualFold against an ASCII name. */
  predicate EqualFold(a: string, b: string) {
    |a| == |b| && forall i :: 0 <= i < |a| ==> Fold(a[i]) == Fold(b[i])
  }

  /** The part of a struct tag before the first comma. */
  function TagName(tag: string): string {
    if tag == "" || tag[0] == ',' then "" else [tag[0]] + TagName(tag[1..])
  }

  predicate Names(tags: seq<string>, key: string) {
    key != "" && key != "-" && exists i :: 0 <= i < |tags| && TagName(tags[i]) == key
  }

  /** The keys the strict decoder lets through. */
  predicate Allowed(key: string, tags: seq<string>, removed: seq<string>) {
    Names(tags, key) && forall i :: 0 <= i < |removed| ==> !EqualFold(key, removed[i])
  }

  predicate AllAllowed(fields: map<string, Json>, tags: seq<string>, removed: seq<string>) {
    forall key :: key in fields ==> Allowed(key, tags, removed)
  }

  /** The check of decodeRuntimeJSON: it accepts exactly the objects whose every key is an exact schema name. */
  method CheckFields(fields: map<string, Json>, tags: seq<string>, removed: seq<string>) returns (ok: bool)
    ensures ok <==> AllAllowed(fields, tags, removed)
  {
    var known: set<string> := {};
    for i := 0 to |tags|
      invariant forall key :: key in known <==> Names(tags[..i], key)
    {
      var name := TagName(tags[i]);
      assert tags[..i + 1] == tags[..i] + [tags[i]];
      forall key
        ensures Names(tags[..i + 1], key) <==> Names(tags[..i], key) || (key == name && key != "" && key != "-")
      {
        assert tags[..i + 1][i] == tags[i];
        if Names(tags[..i], key) {
          var j :| 0 <= j < i && TagName(tags[..i][j]) == key;
          assert tags[..i + 1][j] == tags[..i][j];
        }
      }
      if name != "" && name != "-" {
        known := known + {name};
      }
    }
    assert tags[..|tags|] == tags;
    var todo := fields.Keys;
    while todo != {}
      invariant todo <= fields.Keys
      invariant forall key :: key in fields && key !in todo ==> Allowed(key, tags, removed)
      decreases |todo|
    {
      var field :| field in todo;
      todo := todo - {field};
      for i := 0 to |removed|
        invariant forall j :: 0 <= j < i ==> !EqualFold(field, removed[j])
      {
        if EqualFold(field, removed[i]) {
          return false;
        }
      }
      if field !in known {
        return false;
      }
    }
    return true;
  }

  // ---------- AgentRuntimeSpec ----------

  /** The tag of a field with omitempty. */
  function Tag(name: string): string {
    name + "," + "omitempty"
  }

  const SPEC_TAGS := [Tag("maxTurns"), Tag("allowedTools"), Tag("disallowedTools"), Tag("allowBash")]
  const SPEC_REMOVED := ["workspace"]

  function EncodeSpecFields(v: AgentRuntimeSpec): map<string, Json> {
    Put(Put(Put(Put(map[],
      "maxTurns", EncodeInt(v.maxTurns)),
      "allowedTools", EncodeList(v.allowedTools)),
      "disallowedTools", EncodeNonEmpty(v.disallowedTools)),
      "allowBash", EncodeBool(v.allowBash))
  }

  /** AgentRuntimeSpec.MarshalJSON. */
  function EncodeSpec(v: AgentRuntimeSpec): Json {
    Object(EncodeSpecFields(v))
  }

  function DecodeSpecFields(fields: map<string, Json>): Option<AgentRuntimeSpec> {
    var maxTurns := DecodeInt(Get(fields, "maxTurns"));
    var allowed := DecodeList(Get(fields, "allowedTools"));
    var disallowed := DecodeList(Get(fields, "disallowedTools"));
    var bash := DecodeBool(Get(fields, "allowBash"));
    if maxTurns.None? || allowed.None? || disallowed.None? || bash.None? then None
    else Some(AgentRuntimeSpec(maxTurns.value, allowed.value, disallowed.value, bash.value))
  }

  /** AgentRuntimeSpec.UnmarshalJSON: null decodes to the zero value; everything but an object is refused. */
  ghost function DecodeSpec(j: Json): Option<AgentRuntimeSpec> {
    match j
    case Null => Some(AgentRuntimeSpec(None, None, None, None))
    case Object(fields) => if AllAllowed(fields, SPEC_TAGS, SPEC_REMOVED) then DecodeSpecFields(fields) else None
    case _ => None
  }

  lemma {:induction false} TagBeforeComma(name: string, options: string)
    requires ',' !in name
    ensures TagName(name + "," + options) == name
  {
    var tag := name + "," + options;
    if name == "" {
      assert tag[0] == ',';
    } else {
      assert tag[1..] == name[1..] + "," + options;
      TagBeforeComma(name[1..], options);
      assert name == [name[0]] + name[1..];
    }
  }

  /** A field name that does not fold to the removed name passes the strict check. */
  lemma FieldAllowed(name: string, tags: seq<string>, i: nat, removed: string)
    requires i < |tags| && tags[i] == Tag(name) && ',' !in name && name != "" && name != "-"
    requires removed != "" && (|name| != |removed| || Fold(name[0]) != Fold(removed[0]))
    ensures Allowed(name, tags, [removed])
  {
    TagBeforeComma(name, "omitempty");
    assert TagName(tags[i]) == name;
  }

  lemma FoldKeepsLowerCase(c: char)
    requires 'a' <= c <= 'z'
    ensures Fold(c) == c
  {
  }

  lemma SpecKeys()
    ensures Allowed("maxTurns", SPEC_TAGS, SPEC_REMOVED) && Allowed("allowedTools", SPEC_TAGS, SPEC_REMOVED)
    ensures Allowed("disallowedTools", SPEC_TAGS, SPEC_REMOVED) && Allowed("allowBash", SPEC_TAGS, SPEC_REMOVED)
    ensures |"maxTurns"| == 8 && |"allowedTools"| == 12 && |"disallowedTools"| == 15 && |"allowBash"| == 9
  {
    hide Allowed, Tag, Fold;
    var removed := SPEC_REMOVED[0];
    assert SPEC_REMOVED == [removed] && |removed| == 9;
    FieldAllowed("maxTurns", SPEC_TAGS, 0, removed);
    FieldAllowed("allowedTools", SPEC_TAGS, 1, removed);
    FieldAllowed("disallowedTools", SPEC_TAGS, 2, removed);
    FoldKeepsLowerCase('a');
    FoldKeepsLowerCase('w');
    FieldAllowed("allowBash", SPEC_TAGS, 3, removed);
  }

  lemma SpecFieldsAreFound(v: AgentRuntimeSpec)
    ensures var fields := EncodeSpecFields(v);
            && Get(fields, "maxTurns") == EncodeInt(v.maxTurns)
            && Get(fields, "allowedTools") == EncodeList(v.allowedTools)
            && Get(fields, "disallowedTools") == EncodeNonEmpty(v.disallowedTools)
            && Get(fields, "allowBash") == EncodeBool(v.allowBash)
    ensures AllAllowed(EncodeSpecFields(v), SPEC_TAGS, SPEC_REMOVED)
  {
    hide Allowed, EncodeInt, EncodeBool, EncodeList, EncodeNonEmpty;
    SpecKeys();
  }

  lemma NonEmptyDecodes(xs: Strings)
    ensures DecodeList(EncodeNonEmpty(xs)) == Some(Dropped(xs))
  {
    if xs.Some? {
      TextsDecode(xs.value);
    }
  }

  lemma NumbersDecode(n: Option<int32>, b: Option<bool>)
    ensures DecodeInt(EncodeInt(n)) == Some(n) && DecodeBool(EncodeBool(b)) == Some(b)
  {
  }

  lemma ListDecodes(xs: Strings)
    ensures DecodeList(EncodeList(xs)) == Some(xs)
  {
    if xs.Some? {
      TextsDecode(xs.value);
    }
  }

  /** The strict decoder accepts every key the encoder can emit, and decoding gives the value back. */
  lemma SpecRoundTrip(v: AgentRuntimeSpec)
    ensures AllAllowed(EncodeSpecFields(v), SPEC_TAGS, SPEC_REMOVED)
    ensures DecodeSpec(EncodeSpec(v)) == Some(v.(disallowedTools := Dropped(v.disallowedTools)))
  {
    hide Allowed, EncodeSpecFields, EncodeInt, EncodeBool, EncodeList, EncodeNonEmpty;
    hide DecodeInt, DecodeBool, DecodeList;
    SpecFieldsAreFound(v);
    NumbersDecode(v.maxTurns, v.allowBash);
    ListDecodes(v.allowedTools);
    NonEmptyDecodes(v.disallowedTools);
  }

  /** An omitted allowlist and an empty, deny-all one are never confused. */
  lemma OmittedIsNotDenyAll(v: AgentRuntimeSpec, w: AgentRuntimeSpec)
    requires EncodeSpec(v) == EncodeSpec(w)
    ensures v.allowedTools == w.allowedTools && v.maxTurns == w.maxTurns && v.allowBash == w.allowBash
  {
    SpecRoundTrip(v);
    SpecRoundTrip(w);
  }

  // ---------- AgentCLIRuntime ----------

  function EncodeRef(name: Option<string>): Option<Json> {
    if name.None? then None else Some(Object(map["name" := Str(name.value)]))
  }

  function DecodeRef(j: Option<Json>): Option<Option<string>> {
    match j
    case None => Some(None)
    case Some(Null) => Some(None)
    case Some(Object(fields)) =>
      var name := DecodeText(Get(fields, "name"));
      if name.None? then None else Some(Some(name.value))
    case Some(_) => None
  }

  function EncodeToolbox(t: AgentToolbox): Json {
    Object(Put(map["image" := Str(t.image), "mountPath" := Str(t.mountPath)],
               "pathEntries", EncodeNonEmpty(t.pathEntries)))
  }

  function DecodeToolbox(j: Json): Option<AgentToolbox> {
    match j
    case Null => Some(AgentToolbox("", "", None))
    case Object(fields) =>
      var image, mountPath := DecodeText(Get(fields, "image")), DecodeText(Get(fields, "mountPath"));
      var entries := DecodeList(Get(fields, "pathEntries"));
      if image.None? || mountPath.None? || entries.None? then None
      else Some(AgentToolbox(image.value, mountPath.value, entries.value))
    case _ => None
  }

  function ToolboxItems(ts: seq<AgentToolbox>): seq<Json> {
    if ts == [] then [] else [EncodeToolbox(ts[0])] + ToolboxItems(ts[1..])
  }

  function DecodeToolboxItems(items: seq<Json>): Option<seq<AgentToolbox>> {
    if items == [] then Some([])
    else
      var first, rest := DecodeToolbox(items[0]), DecodeToolboxItems(items[1..]);
      if first.None? || rest.None? then None else Some([first.value] + rest.value)
  }

  function EncodeToolboxes(ts: Option<seq<AgentToolbox>>): Option<Json> {
    if ts.None? || ts.value == [] then None else Some(Array(ToolboxItems(ts.value)))
  }

  function DecodeToolboxes(j: Option<Json>): Option<Option<seq<AgentToolbox>>> {
    match j
    case None => Some(None)
    case Some(Null) => Some(None)
    case Some(Array(items)) =>
      var ts := DecodeToolboxItems(items);
      if ts.None? then None else Some(ts)
    case Some(_) => None
  }

  function NormalToolboxes(ts: seq<AgentToolbox>): seq<AgentToolbox> {
    if ts == [] then []
    else [ts[0].(pathEntries := Dropped(ts[0].pathEntries))] + NormalToolboxes(ts[1..])
  }

  /** What a round trip changes: empty lists with omitempty come back nil. */
  function NormalCLI(v: AgentCLIRuntime): AgentCLIRuntime {
    v.(toolboxes := if v.toolboxes.Some? then Dropped(Some(NormalToolboxes(v.toolboxes.value))) else None)
  }

  lemma ToolboxDecodes(t: AgentToolbox)
    ensures DecodeToolbox(EncodeToolbox(t)) == Some(t.(pathEntries := Dropped(t.pathEntries)))
  {
    assert |"image"| == 5 && |"mountPath"| == 9 && |"pathEntries"| == 11;
    if t.pathEntries.Some? {
      TextsDecode(t.pathEntries.value);
    }
    var fields := EncodeToolbox(t).fields;
    assert Get(fields, "image") == Some(Str(t.image));
    assert Get(fields, "mountPath") == Some(Str(t.mountPath));
    assert Get(fields, "pathEntries") == EncodeNonEmpty(t.pathEntries);
  }

  lemma {:induction false} ToolboxesDecode(ts: seq<AgentToolbox>)
    ensures DecodeToolboxItems(ToolboxItems(ts)) == Some(NormalToolboxes(ts))
    ensures |NormalToolboxes(ts)| == |ts|
  {
    hide DecodeToolbox, EncodeToolbox;
    if ts != [] {
      ToolboxDecodes(ts[0]);
      ToolboxesDecode(ts[1..]);
      assert ToolboxItems(ts)[1..] == ToolboxItems(ts[1..]);
    }
  }

  const CLI_TAGS := [
    Tag("type"), Tag("contractVersion"), Tag("runtimeRef"), Tag("defaultMaxTurns"),
    Tag("defaultAllowedTools"), Tag("defaultAllowBash"), Tag("defaultReasoningEffort"), Tag("toolboxes")]
  const CLI_REMOVED := ["secretRef"]

  function EncodeCLIFields(v: AgentCLIRuntime): map<string, Json> {
    Put(Put(Put(Put(Put(Put(Put(Put(map[],
      "type", EncodeText(v.kind)),
      "contractVersion", EncodePointer(v.contractVersion)),
      "runtimeRef", EncodeRef(v.runtimeRef)),
      "defaultMaxTurns", EncodeInt(v.defaultMaxTurns)),
      "defaultAllowedTools", EncodeList(v.defaultAllowedTools)),
      "defaultAllowBash", EncodeBool(v.defaultAllowBash)),
      "defaultReasoningEffort", EncodeText(v.defaultReasoningEffort)),
      "toolboxes", EncodeToolboxes(v.toolboxes))
  }

  /** AgentCLIRuntime.MarshalJSON. */
  function EncodeCLI(v: AgentCLIRuntime): Json {
    Object(EncodeCLIFields(v))
  }

  function DecodeCLIFields(fields: map<string, Json>): Option<AgentCLIRuntime> {
    var kind := DecodeText(Get(fields, "type"));
    var contract := DecodeContract(Get(fields, "contractVersion"));
    var ref := DecodeRef(Get(fields, "runtimeRef"));
    var turns := DecodeInt(Get(fields, "defaultMaxTurns"));
    var tools := DecodeList(Get(fields, "defaultAllowedTools"));
    var bash := DecodeBool(Get(fields, "defaultAllowBash"));
    var effort := DecodeText(Get(fields, "defaultReasoningEffort"));
    var boxes := DecodeToolboxes(Get(fields, "toolboxes"));
    if kind.None? || contract.None? || ref.None? || turns.None? then None
    else if tools.None? || bash.None? || effort.None? || boxes.None? then None
    else Some(AgentCLIRuntime(kind.value, contract.value, ref.value, turns.value,
                              tools.value, bash.value, effort.value, boxes.value))
  }

  /** AgentCLIRuntime.UnmarshalJSON. */
  ghost function DecodeCLI(j: Json): Option<AgentCLIRuntime> {
    match j
    case Null => Some(AgentCLIRuntime("", None, None, None, None, None, "", None))
    case Object(fields) => if AllAllowed(fields, CLI_TAGS, CLI_REMOVED) then DecodeCLIFields(fields) else None
    case _ => None
  }

  lemma CLIKeyLengths()
    ensures |"type"| == 4 && |"contractVersion"| == 15 && |"runtimeRef"| == 10 && |"defaultMaxTurns"| == 15
    ensures "contractVersion" != "defaultMaxTurns"
    ensures |"defaultAllowedTools"| == 19 && |"defaultAllowBash"| == 16 && |"defaultReasoningEffort"| == 22
    ensures |"toolboxes"| == 9 && |CLI_REMOVED[0]| == 9
  {
    assert "contractVersion"[0] == 'c' && "defaultMaxTurns"[0] == 'd';
  }

  lemma CLIKeysFirstHalf()
    ensures Allowed("type", CLI_TAGS, CLI_REMOVED) && Allowed("contractVersion", CLI_TAGS, CLI_REMOVED)
    ensures Allowed("runtimeRef", CLI_TAGS, CLI_REMOVED) && Allowed("defaultMaxTurns", CLI_TAGS, CLI_REMOVED)
  {
    hide Allowed, Tag, Fold;
    CLIKeyLengths();
    var removed := CLI_REMOVED[0];
    assert CLI_REMOVED == [removed];
    FieldAllowed("type", CLI_TAGS, 0, removed);
    FieldAllowed("contractVersion", CLI_TAGS, 1, removed);
    FieldAllowed("runtimeRef", CLI_TAGS, 2, removed);
    FieldAllowed("defaultMaxTurns", CLI_TAGS, 3, removed);
  }

  lemma CLIKeysSecondHalf()
    ensures Allowed("defaultAllowedTools", CLI_TAGS, CLI_REMOVED) && Allowed("defaultAllowBash", CLI_TAGS, CLI_REMOVED)
    ensures Allowed("defaultReasoningEffort", CLI_TAGS, CLI_REMOVED) && Allowed("toolboxes", CLI_TAGS, CLI_REMOVED)
  {
    hide Allowed, Tag, Fold;
    CLIKeyLengths();
    var removed := CLI_REMOVED[0];
    assert CLI_REMOVED == [removed];
    FieldAllowed("defaultAllowedTools", CLI_TAGS, 4, removed);
    FieldAllowed("defaultAllowBash", CLI_TAGS, 5, removed);
    FieldAllowed("defaultReasoningEffort", CLI_TAGS, 6, removed);
    FoldKeepsLowerCase('s');
    FoldKeepsLowerCase('t');
    FieldAllowed("toolboxes", CLI_TAGS, 7, removed);
  }

  lemma CLIFieldsFirstHalf(v: AgentCLIRuntime)
    ensures var fields := EncodeCLIFields(v);
            && Get(fields, "type") == EncodeText(v.kind)
            && Get(fields, "contractVersion") == EncodePointer(v.contractVersion)
            && Get(fields, "runtimeRef") == EncodeRef(v.runtimeRef)
            && Get(fields, "defaultMaxTurns") == EncodeInt(v.defaultMaxTurns)
  {
    hide EncodeText, EncodePointer, EncodeRef, EncodeInt, EncodeList, EncodeBool, EncodeToolboxes;
    CLIKeyLengths();
  }

  lemma CLIFieldsSecondHalf(v: AgentCLIRuntime)
    ensures var fields := EncodeCLIFields(v);
            && Get(fields, "defaultAllowedTools") == EncodeList(v.defaultAllowedTools)
            && Get(fields, "defaultAllowBash") == EncodeBool(v.defaultAllowBash)
            && Get(fields, "defaultReasoningEffort") == EncodeText(v.defaultReasoningEffort)
            && Get(fields, "toolboxes") == EncodeToolboxes(v.toolboxes)
  {
    hide EncodeText, EncodePointer, EncodeRef, EncodeInt, EncodeList, EncodeBool, EncodeToolboxes;
    CLIKeyLengths();
  }

  lemma PutAllowed(fields: map<string, Json>, key: string, value: Option<Json>, tags: seq<string>, removed: seq<string>)
    requires AllAllowed(fields, tags, removed) && Allowed(key, tags, removed)
    ensures AllAllowed(Put(fields, key, value), tags, removed)
  {
  }

  /** The strict decoder accepts every key the encoder can emit. */
  lemma CLIKeysAreAllowed(v: AgentCLIRuntime)
    ensures AllAllowed(EncodeCLIFields(v), CLI_TAGS, CLI_REMOVED)
  {
    hide Allowed, Put, EncodeText, EncodePointer, EncodeRef, EncodeInt, EncodeList, EncodeBool, EncodeToolboxes;
    CLIKeysFirstHalf();
    CLIKeysSecondHalf();
    var f := map[];
    assert AllAllowed(f, CLI_TAGS, CLI_REMOVED);
    hide AllAllowed;
    PutAllowed(f, "type", EncodeText(v.kind), CLI_TAGS, CLI_REMOVED);
    f := Put(f, "type", EncodeText(v.kind));
    PutAllowed(f, "contractVersion", EncodePointer(v.contractVersion), CLI_TAGS, CLI_REMOVED);
    f := Put(f, "contractVersion", EncodePointer(v.contractVersion));
    PutAllowed(f, "runtimeRef", EncodeRef(v.runtimeRef), CLI_TAGS, CLI_REMOVED);
    f := Put(f, "runtimeRef", EncodeRef(v.runtimeRef));
    PutAllowed(f, "defaultMaxTurns", EncodeInt(v.defaultMaxTurns), CLI_TAGS, CLI_REMOVED);
    f := Put(f, "defaultMaxTurns", EncodeInt(v.defaultMaxTurns));
    PutAllowed(f, "defaultAllowedTools", EncodeList(v.defaultAllowedTools), CLI_TAGS, CLI_REMOVED);
    f := Put(f, "defaultAllowedTools", EncodeList(v.defaultAllowedTools));
    PutAllowed(f, "defaultAllowBash", EncodeBool(v.defaultAllowBash), CLI_TAGS, CLI_REMOVED);
    f := Put(f, "defaultAllowBash", EncodeBool(v.defaultAllowBash));
    PutAllowed(f, "defaultReasoningEffort", EncodeText(v.defaultReasoningEffort), CLI_TAGS, CLI_REMOVED);
    f := Put(f, "defaultReasoningEffort", EncodeText(v.defaultReasoningEffort));
    PutAllowed(f, "toolboxes", EncodeToolboxes(v.toolboxes), CLI_TAGS, CLI_REMOVED);
  }

  lemma TextDecodes(s: string)
    ensures DecodeText(EncodeText(s)) == Some(s)
  {
  }

  lemma RefDecodes(name: Option<string>)
    ensures DecodeRef(EncodeRef(name)) == Some(name)
  {
  }

  lemma ContractDecodes(version: Option<string>)
    ensures DecodeContract(EncodePointer(version)) ==
            if version.None? || version == Some(HARNESS_V2) then Some(version) else None
  {
  }

  lemma ToolboxListDecodes(ts: Option<seq<AgentToolbox>>)
    ensures DecodeToolboxes(EncodeToolboxes(ts)) ==
            Some(if ts.Some? then Dropped(Some(NormalToolboxes(ts.value))) else None)
  {
    if ts.Some? {
      ToolboxesDecode(ts.value);
    }
  }

  /** A runtime comes back from its JSON exactly when its contract version is unset or the supported one. */
  lemma CLIRoundTrip(v: AgentCLIRuntime)
    ensures AllAllowed(EncodeCLIFields(v), CLI_TAGS, CLI_REMOVED)
    ensures DecodeCLI(EncodeCLI(v)) ==
            if v.contractVersion.None? || v.contractVersion == Some(HARNESS_V2) then Some(NormalCLI(v)) else None
  {
    hide Allowed, EncodeCLIFields, EncodeInt, EncodeBool, EncodeList, EncodeText, EncodeRef, EncodePointer;
    hide DecodeInt, DecodeBool, DecodeList, DecodeText, DecodeRef, DecodeContract;
    hide EncodeToolboxes, DecodeToolboxes;
    CLIFieldsFirstHalf(v);
    CLIFieldsSecondHalf(v);
    CLIKeysAreAllowed(v);
    NumbersDecode(v.defaultMaxTurns, v.defaultAllowBash);
    TextDecodes(v.kind);
    TextDecodes(v.defaultReasoningEffort);
    RefDecodes(v.runtimeRef);
    ListDecodes(v.defaultAllowedTools);
    ContractDecodes(v.contractVersion);
    ToolboxListDecodes(v.toolboxes);
  }

  // ---------- the receivers ----------

  /** A value that UnmarshalJSON writes through. */
  class RuntimeSpecReceiver {
    var value: AgentRuntimeSpec

    /** UnmarshalJSON on the spec: a rejected document leaves the value as it was. */
    method UnmarshalJSON(j: Json) returns (ok: bool)
      modifies this
      ensures ok <==> DecodeSpec(j).Some?
      ensures value == if ok then DecodeSpec(j).value else old(value)
    {
      if j.Null? {
        value := AgentRuntimeSpec(None, None, None, None);
        return true;
      }
      if !j.Object? {
        return false;
      }
      var strict := CheckFields(j.fields, SPEC_TAGS, SPEC_REMOVED);
      var decoded := DecodeSpecFields(j.fields);
      if !strict || decoded.None? {
        return false;
      }
      value := decoded.value;
      return true;
    }
  }

  /** A value that UnmarshalJSON writes through. */
  class CLIRuntimeReceiver {
    var value: AgentCLIRuntime

    /** UnmarshalJSON on the Agent's runtime: a rejected document leaves the value as it was. */
    method UnmarshalJSON(j: Json) returns (ok: bool)
      modifies this
      ensures ok <==> DecodeCLI(j).Some?
      ensures value == if ok then DecodeCLI(j).value else old(value)
    {
      if j.Null? {
        value := AgentCLIRuntime("", None, None, None, None, None, "", None);
        return true;
      }
      if !j.Object? {
        return false;
      }
      var strict := CheckFields(j.fields, CLI_TAGS, CLI_REMOVED);
      var decoded := DecodeCLIFields(j.fields);
      if !strict || decoded.None? {
        return false;
      }
      value := decoded.value;
      return true;
    }
  }
}
