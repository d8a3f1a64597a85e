/**
 The cache options of the controller manager: managerCacheOptions, whose seven runtime entries share one
 namespace map, and agentHostCacheOptions, which adds the agent-host namespace to four types in place.
 Maps are heap objects here, because the source shares and mutates them.
 */
module CacheOptions {
  import opened Prelude
  import opened Text

  datatype Kind =
    | ConfigMap | Deployment | ReplicaSet | Pod | Service | Secret
    | NetworkPolicy | PodDisruptionBudget | PersistentVolumeClaim

  /** The settings for one namespace. */
  datatype Config = Plain | Custom(id: int)

  class NamespaceMap {
    var names: map<string, Config>

    constructor (names: map<string, Config>)
      ensures this.names == names
    {
      this.names := names;
    }
  }

  /** An object pointer used as a map key; only its type matters to the cache. */
  class ObjectKey {
    const kind: Kind

    constructor (kind: Kind)
      ensures this.kind == kind
    {
      this.kind := kind;
    }
  }

  type Table = map<ObjectKey, NamespaceMap?>

  /** The entries' namespaces, and the other settings of those entries that have any. */
  class ByObjectMap {
    var entries: Table
    var settings: map<ObjectKey, int>

    constructor ()
      ensures entries == map[] && settings == map[]
    {
      entries, settings := map[], map[];
    }
  }

  datatype Options = Options(defaults: NamespaceMap?, byObject: ByObjectMap?)

  ghost predicate Has(t: Table, kind: Kind) {
    exists key :: key in t && key.kind == kind
  }

  predicate OnePerKind(t: Table) {
    forall a, b :: a in t && b in t && a.kind == b.kind ==> a == b
  }

  const HOST_KINDS: seq<Kind> := [Pod, Secret, PersistentVolumeClaim, NetworkPolicy]

  /** Writing to a clone of a nil map would panic. */
  predicate NoNilHostEntry(t: Table) {
    forall key :: key in t && key.kind in HOST_KINDS ==> t[key] != null
  }

  /** The namespaces the cache uses for a type: its own entry's if that has some, or the defaults. */
  ghost function Names(t: Table, defaults: NamespaceMap, kind: Kind): map<string, Config>
    reads defaults, t.Values
  {
    if Has(t, kind) then
      var key :| key in t && key.kind == kind;
      if t[key] == null then defaults.names else t[key].names
    else defaults.names
  }

  /** What the cache does for one type: the namespaces it uses, and whether the type has its own entry. */
  datatype Shown = Shown(names: map<string, Config>, own: bool)

  ghost function View(t: Table, defaults: NamespaceMap): map<Kind, Shown>
    reads defaults, t.Values
  {
    map kind: Kind :: Shown(Names(t, defaults, kind), Has(t, kind))
  }

  /** The same with the host's namespace added for these types. */
  function Hosting(view: map<Kind, Shown>, kinds: set<Kind>, host: string): map<Kind, Shown> {
    map kind | kind in view ::
      if kind in kinds then Shown(view[kind].names[host := Plain], true) else view[kind]
  }

  lemma HostingMore(view: map<Kind, Shown>, kinds: set<Kind>, kind: Kind, host: string)
    requires kind !in kinds
    ensures Hosting(Hosting(view, kinds, host), {kind}, host) == Hosting(view, kinds + {kind}, host)
  {
  }

  lemma HostingNothing(view: map<Kind, Shown>, host: string)
    ensures Hosting(view, {}, host) == view
  {
  }

  lemma HostingTwice(view: map<Kind, Shown>, kinds: set<Kind>, host: string)
    ensures Hosting(Hosting(view, kinds, host), kinds, host) == Hosting(view, kinds, host)
  {
    var once := Hosting(view, kinds, host);
    forall kind | kind in view
      ensures Hosting(once, kinds, host)[kind] == once[kind]
    {
      assert kind in kinds ==> once[kind].names[host := Plain] == once[kind].names;
    }
  }

  lemma NamesOfEntry(t: Table, defaults: NamespaceMap, key: ObjectKey)
    requires OnePerKind(t) && key in t && t[key] != null
    ensures Names(t, defaults, key.kind) == t[key].names
  {
    assert Has(t, key.kind);
  }

  /** Replacing or adding the entry of one type affects no other type. */
  lemma OtherKindsKeepNames(t: Table, key: ObjectKey, m: NamespaceMap, defaults: NamespaceMap, kind: Kind)
    requires OnePerKind(t) && OnePerKind(t[key := m]) && kind != key.kind
    ensures Names(t[key := m], defaults, kind) == Names(t, defaults, kind)
    ensures Has(t[key := m], kind) <==> Has(t, kind)
  {
    if Has(t, kind) {
      var k :| k in t && k.kind == kind;
      assert k in t[key := m];
    }
  }

  /** The search for an entry of the same type; the order of a Go map range is arbitrary. */
  method FindEntry(table: Table, kind: Kind) returns (found: Option<ObjectKey>)
    requires NoNilHostEntry(table)
    ensures found.Some? ==> found.value in table && found.value.kind == kind
    ensures found.Some? && kind in HOST_KINDS ==> table[found.value] != null
    ensures found.None? ==> forall key :: key in table ==> key.kind != kind
  {
    var todo := table.Keys;
    while todo != {}
      invariant todo <= table.Keys
      invariant forall k :: k in table && k !in todo ==> k.kind != kind
      decreases |todo|
    {
      var candidate :| candidate in todo;
      if candidate.kind == kind {
        return Some(candidate);
      }
      todo := todo - {candidate};
    }
    return None;
  }

  lemma NamesByDefault(t: Table, defaults: NamespaceMap, kind: Kind)
    requires forall key :: key in t ==> key.kind != kind
    ensures Names(t, defaults, kind) == defaults.names
  {
  }

  /** The entry just stored is the only one of its type. */
  lemma EntryStored(t: Table, key: ObjectKey, m: NamespaceMap, defaults: NamespaceMap)
    requires OnePerKind(t)
    requires key in t || forall k :: k in t ==> k.kind != key.kind
    ensures OnePerKind(t[key := m]) && Has(t[key := m], key.kind)
    ensures Names(t[key := m], defaults, key.kind) == m.names
  {
    NamesOfEntry(t[key := m], defaults, key);
  }

  /** The type has an entry with the host's namespace. */
  ghost predicate Hosted(t: Table, kind: Kind, host: string)
    reads t.Values
  {
    exists key :: key in t && key.kind == kind && t[key] != null && host in t[key].names
  }

  /**
   From `before` to `after`, only entries of these types changed: they gained the host's namespace, or were
   added with the defaults and the host's namespace where the type had no entry. Each type has such an entry.
   */
  ghost predicate GainsHost(before: Table, after: Table, kinds: set<Kind>, host: string, defaults: NamespaceMap)
    reads defaults, before.Values, after.Values
  {
    && (forall key :: key in before ==>
          && key in after
          && (after[key] != before[key] ==>
                && key.kind in kinds && after[key] != null && before[key] != null
                && after[key].names == before[key].names[host := Plain]))
    && (forall key :: key in after && key !in before ==>
          && key.kind in kinds && (forall k :: k in before ==> k.kind != key.kind)
          && after[key] != null && after[key].names == defaults.names[host := Plain])
    && (forall kind :: kind in kinds ==> Hosted(after, kind, host))
  }

  /** Outside these keys, the table is as it was. */
  predicate Replaced(before: Table, after: Table, written: set<ObjectKey>) {
    after - written == before - written
  }

  lemma ReplacedNothing(t: Table)
    ensures Replaced(t, t, {})
  {
  }

  lemma ReplacedMore(before: Table, middle: Table, after: Table, written: set<ObjectKey>, key: ObjectKey)
    requires Replaced(before, middle, written) && Replaced(middle, after, {key})
    ensures Replaced(before, after, written + {key})
  {
    var all := written + {key};
    assert after - all == (after - {key}) - written;
    assert middle - all == (middle - {key}) - written;
    assert middle - all == (middle - written) - {key};
    assert before - all == (before - written) - {key};
  }

  /** One entry was written for each of these types, and for no other. */
  ghost predicate WrittenFor(written: set<ObjectKey>, kinds: set<Kind>) {
    && (forall key :: key in written ==> key.kind in kinds)
    && (forall kind :: kind in kinds ==> exists key :: key in written && key.kind == kind)
    && (forall a, b :: a in written && b in written && a.kind == b.kind ==> a == b)
  }

  lemma GainsNothing(t: Table, host: string, defaults: NamespaceMap)
    ensures GainsHost(t, t, {}, host, defaults)
  {
  }

  lemma GainsCompose(
      before: Table, middle: Table, after: Table, kinds: set<Kind>, kind: Kind, host: string, defaults: NamespaceMap)
    requires GainsHost(before, middle, kinds, host, defaults) && GainsHost(middle, after, {kind}, host, defaults)
    requires kind !in kinds
    ensures GainsHost(before, after, kinds + {kind}, host, defaults)
  {
    forall k | k in kinds
      ensures Hosted(after, k, host)
    {
      assert Hosted(middle, k, host);
      var key :| key in middle && key.kind == k && middle[key] != null && host in middle[key].names;
      assert key in after && after[key] == middle[key];
    }
  }

  lemma EntryGains(t: Table, key: ObjectKey, m: NamespaceMap, host: string, defaults: NamespaceMap)
    requires key in t ==> t[key] != null && m.names == t[key].names[host := Plain]
    requires key !in t ==> (forall k :: k in t ==> k.kind != key.kind) && m.names == defaults.names[host := Plain]
    ensures GainsHost(t, t[key := m], {key.kind}, host, defaults)
  {
    var after := t[key := m];
    assert key in after && host in after[key].names;
  }

  lemma EntryShows(t: Table, key: ObjectKey, m: NamespaceMap, host: string, defaults: NamespaceMap)
    requires OnePerKind(t)
    requires key in t ==> t[key] != null && m.names == t[key].names[host := Plain]
    requires key !in t ==> (forall k :: k in t ==> k.kind != key.kind) && m.names == defaults.names[host := Plain]
    ensures OnePerKind(t[key := m])
    ensures View(t[key := m], defaults) == Hosting(View(t, defaults), {key.kind}, host)
  {
    hide Names, Has, OnePerKind;
    EntryStored(t, key, m, defaults);
    if key in t {
      NamesOfEntry(t, defaults, key);
    } else {
      NamesByDefault(t, defaults, key.kind);
    }
    forall kind
      ensures View(t[key := m], defaults)[kind] == Hosting(View(t, defaults), {key.kind}, host)[kind]
    {
      if kind != key.kind {
        OtherKindsKeepNames(t, key, m, defaults, kind);
      }
    }
  }

  /** One round of agentHostCacheOptions: clone the type's namespaces, add the host's, store the clone. */
  method AddHost(options: Options, kind: Kind, host: string) returns (key: ObjectKey)
    requires options.defaults != null && options.byObject != null
    requires NoNilHostEntry(options.byObject.entries) && kind in HOST_KINDS
    modifies options.byObject
    ensures NoNilHostEntry(options.byObject.entries)
    ensures GainsHost(old(options.byObject.entries), options.byObject.entries, {kind}, host, options.defaults)
    ensures key.kind == kind && Replaced(old(options.byObject.entries), options.byObject.entries, {key})
    ensures options.byObject.settings == old(options.byObject.settings) - {key}
    ensures old(OnePerKind(options.byObject.entries)) ==> OnePerKind(options.byObject.entries)
    ensures old(OnePerKind(options.byObject.entries)) ==>
              View(options.byObject.entries, options.defaults) ==
              Hosting(old(View(options.byObject.entries, options.defaults)), {kind}, host)
  {
    hide View, Hosting, OnePerKind, GainsHost;
    var table := options.byObject.entries;
    var found := FindEntry(table, kind);
    var namespaces;
    if found.Some? {
      key := found.value;
      namespaces := new NamespaceMap(table[key].names);
    } else {
      key := new ObjectKey(kind);
      namespaces := new NamespaceMap(options.defaults.names);
    }
    namespaces.names := namespaces.names[host := Plain];
    options.byObject.entries := table[key := namespaces];
    options.byObject.settings := options.byObject.settings - {key};
    EntryGains(table, key, namespaces, host, options.defaults);
    if OnePerKind(table) {
      EntryShows(table, key, namespaces, host, options.defaults);
      assert View(table, options.defaults) == old(View(table, options.defaults));
    }
  }

  function KindSet(kinds: seq<Kind>): set<Kind> {
    set kind | kind in kinds
  }

  /** The loop over the four types. */
  method AddHosts(options: Options, host: string) returns (ghost written: set<ObjectKey>)
    requires options.defaults != null && options.byObject != null
    requires NoNilHostEntry(options.byObject.entries)
    modifies options.byObject
    ensures NoNilHostEntry(options.byObject.entries)
    ensures GainsHost(old(options.byObject.entries), options.byObject.entries,
                      KindSet(HOST_KINDS), host, options.defaults)
    ensures WrittenFor(written, KindSet(HOST_KINDS))
    ensures Replaced(old(options.byObject.entries), options.byObject.entries, written)
    ensures options.byObject.settings == old(options.byObject.settings) - written
    ensures old(OnePerKind(options.byObject.entries)) ==> OnePerKind(options.byObject.entries)
    ensures old(OnePerKind(options.byObject.entries)) ==>
              View(options.byObject.entries, options.defaults) ==
              Hosting(old(View(options.byObject.entries, options.defaults)), KindSet(HOST_KINDS), host)
  {
    hide View, Hosting, OnePerKind, NoNilHostEntry, GainsHost, Replaced;
    GainsNothing(options.byObject.entries, host, options.defaults);
    HostingNothing(View(options.byObject.entries, options.defaults), host);
    assert KindSet(HOST_KINDS[..0]) == {};
    written := {};
    ReplacedNothing(options.byObject.entries);
    for i := 0 to |HOST_KINDS|
      invariant NoNilHostEntry(options.byObject.entries)
      invariant GainsHost(old(options.byObject.entries), options.byObject.entries,
                          KindSet(HOST_KINDS[..i]), host, options.defaults)
      invariant WrittenFor(written, KindSet(HOST_KINDS[..i]))
      invariant Replaced(old(options.byObject.entries), options.byObject.entries, written)
      invariant options.byObject.settings == old(options.byObject.settings) - written
      invariant old(OnePerKind(options.byObject.entries)) ==> OnePerKind(options.byObject.entries)
      invariant old(OnePerKind(options.byObject.entries)) ==>
                  View(options.byObject.entries, options.defaults) ==
                  Hosting(old(View(options.byObject.entries, options.defaults)), KindSet(HOST_KINDS[..i]), host)
    {
      assert HOST_KINDS[i] !in HOST_KINDS[..i];
      assert HOST_KINDS[..i + 1] == HOST_KINDS[..i] + [HOST_KINDS[i]];
      assert KindSet(HOST_KINDS[..i + 1]) == KindSet(HOST_KINDS[..i]) + {HOST_KINDS[i]};
      ghost var middle := options.byObject.entries;
      var key := AddHost(options, HOST_KINDS[i], host);
      ReplacedMore(old(options.byObject.entries), middle, options.byObject.entries, written, key);
      written := written + {key};
      GainsCompose(old(options.byObject.entries), middle, options.byObject.entries,
                   KindSet(HOST_KINDS[..i]), HOST_KINDS[i], host, options.defaults);
      HostingMore(old(View(options.byObject.entries, options.defaults)),
                  KindSet(HOST_KINDS[..i]), HOST_KINDS[i], host);
    }
    assert HOST_KINDS[..|HOST_KINDS|] == HOST_KINDS;
  }

  /** Whether agentHostCacheOptions has anything to do. */
  predicate Restricted(options: Options, host: string)
    reads options.defaults
  {
    host != "" && options.defaults != null && options.defaults.names != map[]
  }

  /** A nil map of entries reads as an empty one. */
  function Entries(options: Options): Table
    reads options.byObject
  {
    if options.byObject == null then map[] else options.byObject.entries
  }

  function Settings(options: Options): map<ObjectKey, int>
    reads options.byObject
  {
    if options.byObject == null then map[] else options.byObject.settings
  }

  /**
   agentHostCacheOptions. Only the map of entries is written, so no namespace map that existed before changes,
   shared or not. The entries it writes lose their other settings.
   */
  method AgentHostCacheOptions(options: Options, hostNamespace: string)
    returns (r: Options, ghost written: set<ObjectKey>)
    requires NoNilHostEntry(Entries(options))
    modifies options.byObject
    ensures r.defaults == options.defaults && (options.byObject != null ==> r == options)
    ensures options.byObject == null && r.byObject != null ==> fresh(r.byObject)
    ensures NoNilHostEntry(Entries(r))
    ensures !Restricted(options, TrimSpace(hostNamespace)) ==>
              r == options && Entries(options) == old(Entries(options)) && Settings(options) == old(Settings(options))
    ensures Restricted(options, TrimSpace(hostNamespace)) ==>
              && GainsHost(old(Entries(options)), Entries(r), KindSet(HOST_KINDS), TrimSpace(hostNamespace), r.defaults)
              && WrittenFor(written, KindSet(HOST_KINDS)) && Replaced(old(Entries(options)), Entries(r), written)
              && Settings(r) == old(Settings(options)) - written
    ensures old(OnePerKind(Entries(options))) ==> OnePerKind(Entries(r))
    ensures Restricted(options, TrimSpace(hostNamespace)) && old(OnePerKind(Entries(options))) ==>
              View(Entries(r), r.defaults) ==
              Hosting(old(View(Entries(options), options.defaults)), KindSet(HOST_KINDS), TrimSpace(hostNamespace))
  {
    hide View, OnePerKind, NoNilHostEntry, GainsHost;
    var host := TrimSpace(hostNamespace);
    r, written := options, {};
    if host == "" || options.defaults == null || |options.defaults.names| == 0 {
      return;
    }
    if r.byObject == null {
      var entries := new ByObjectMap();
      r := Options(r.defaults, entries);
    }
    assert Entries(r) == old(Entries(options));
    written := AddHosts(r, host);
  }

  /** Applied twice to a table with one entry per type, it gives every type what it gives when applied once. */
  method AddHostTwice(options: Options, hostNamespace: string) returns (r: Options)
    requires NoNilHostEntry(Entries(options))
    modifies options.byObject
    ensures r.defaults == options.defaults
    ensures !Restricted(options, TrimSpace(hostNamespace)) ==>
              r == options && Entries(options) == old(Entries(options))
    ensures Restricted(options, TrimSpace(hostNamespace)) && old(OnePerKind(Entries(options))) ==>
              && OnePerKind(Entries(r))
              && View(Entries(r), r.defaults) ==
                 Hosting(old(View(Entries(options), options.defaults)), KindSet(HOST_KINDS), TrimSpace(hostNamespace))
  {
    hide View, Hosting, OnePerKind, NoNilHostEntry, GainsHost;
    ghost var written;
    r, written := AgentHostCacheOptions(options, hostNamespace);
    r, written := AgentHostCacheOptions(r, hostNamespace);
    if Restricted(options, TrimSpace(hostNamespace)) {
      HostingTwice(old(View(Entries(options), options.defaults)), KindSet(HOST_KINDS), TrimSpace(hostNamespace));
    }
  }

  // ---------- managerCacheOptions ----------

  const RUNTIME_KINDS: seq<Kind> :=
    [Deployment, ReplicaSet, Pod, Service, Secret, NetworkPolicy, PodDisruptionBudget]

  function Pair(a: string, b: string): map<string, Config> {
    map[a := Plain, b := Plain]
  }

  /** Whether a type gets an entry of its own. */
  predicate OwnEntry(kind: Kind, watch: string, runtime: string, controller: string) {
    || (kind == ConfigMap && controller != "" && controller != watch)
    || (kind in RUNTIME_KINDS && runtime != "")
  }

  /** The namespaces the manager caches for a type. */
  function BaseNames(kind: Kind, watch: string, runtime: string, controller: string): map<string, Config> {
    if !OwnEntry(kind, watch, runtime, controller) then map[watch := Plain]
    else Pair(watch, if kind == ConfigMap then controller else runtime)
  }

  /** Every entry shows what it should, and types without one fall back to the defaults. */
  ghost predicate Shows(t: Table, names: Kind -> map<string, Config>, own: Kind -> bool)
    reads t.Values
  {
    && OnePerKind(t)
    && (forall key :: key in t ==> own(key.kind) && t[key] != null && t[key].names == names(key.kind))
    && (forall kind :: own(kind) ==> Has(t, kind))
  }

  lemma ShownNames(t: Table, names: Kind -> map<string, Config>, own: Kind -> bool, defaults: NamespaceMap, kind: Kind)
    requires Shows(t, names, own)
    requires !own(kind) ==> names(kind) == defaults.names
    ensures Names(t, defaults, kind) == names(kind)
    ensures Has(t, kind) <==> own(kind)
  {
    if own(kind) {
      var key :| key in t && key.kind == kind;
      NamesOfEntry(t, defaults, key);
    }
  }

  /** One assignment options.ByObject[&T{}] = ByObject{Namespaces: m}. */
  method AddEntry(table: ByObjectMap, kind: Kind, m: NamespaceMap)
    requires OnePerKind(table.entries) && !Has(table.entries, kind)
    modifies table
    ensures OnePerKind(table.entries) && Has(table.entries, kind)
    ensures forall key :: key in table.entries ==>
              if key.kind == kind then table.entries[key] == m
              else key in old(table.entries) && table.entries[key] == old(table.entries)[key]
    ensures forall other :: other != kind ==> (Has(table.entries, other) <==> old(Has(table.entries, other)))
  {
    var key := new ObjectKey(kind);
    ghost var before := table.entries;
    table.entries := table.entries[key := m];
    assert key in table.entries;
    forall other | other != kind
      ensures Has(table.entries, other) <==> Has(before, other)
    {
      if Has(before, other) {
        var k :| k in before && k.kind == other;
        assert k in table.entries;
      }
    }
  }

  /** Seven types, one map. */
  method AddShared(table: ByObjectMap, shared: NamespaceMap)
    requires OnePerKind(table.entries) && forall kind :: kind in RUNTIME_KINDS ==> !Has(table.entries, kind)
    modifies table
    ensures OnePerKind(table.entries)
    ensures forall key :: key in table.entries ==>
              if key.kind in RUNTIME_KINDS then table.entries[key] == shared
              else key in old(table.entries) && table.entries[key] == old(table.entries)[key]
    ensures forall kind :: Has(table.entries, kind) <==> kind in RUNTIME_KINDS || old(Has(table.entries, kind))
  {
    hide Has, OnePerKind;
    for i := 0 to |RUNTIME_KINDS|
      invariant OnePerKind(table.entries)
      invariant forall key :: key in table.entries ==>
                  if key.kind in RUNTIME_KINDS[..i] then table.entries[key] == shared
                  else key in old(table.entries) && table.entries[key] == old(table.entries)[key]
      invariant forall kind :: Has(table.entries, kind) <==>
                  kind in RUNTIME_KINDS[..i] || old(Has(table.entries, kind))
    {
      assert RUNTIME_KINDS[i] !in RUNTIME_KINDS[..i];
      assert RUNTIME_KINDS[..i + 1] == RUNTIME_KINDS[..i] + [RUNTIME_KINDS[i]];
      AddEntry(table, RUNTIME_KINDS[i], shared);
    }
    assert RUNTIME_KINDS[..|RUNTIME_KINDS|] == RUNTIME_KINDS;
  }

  method AddEntries(table: ByObjectMap, watch: string, runtime: string, controller: string)
    requires table.entries == map[]
    modifies table
    ensures Shows(table.entries, k => BaseNames(k, watch, runtime, controller),
                  k => OwnEntry(k, watch, runtime, controller))
    ensures forall key :: key in table.entries ==> fresh(table.entries[key])
  {
    if controller != "" && controller != watch {
      var both := new NamespaceMap(Pair(watch, controller));
      AddEntry(table, ConfigMap, both);
    }
    if runtime == "" {
      return;
    }
    var shared := new NamespaceMap(Pair(watch, runtime));
    AddShared(table, shared);
  }

  /** managerCacheOptions: the runtime types share one namespace map. */
  method ManagerCacheOptions(watchNamespace: string, acpRuntimeNamespace: string, controllerNamespace: string)
    returns (r: Options)
    ensures TrimSpace(watchNamespace) == "" ==> r == Options(null, null)
    ensures TrimSpace(watchNamespace) != "" ==>
              && r.defaults != null && fresh(r.defaults) && r.byObject != null && fresh(r.byObject)
              && r.defaults.names != map[]
              && OnePerKind(Entries(r)) && NoNilHostEntry(Entries(r))
              && forall kind ::
                   var watch, runtime, controller :=
                     TrimSpace(watchNamespace), TrimSpace(acpRuntimeNamespace), TrimSpace(controllerNamespace);
                   && Names(Entries(r), r.defaults, kind) == BaseNames(kind, watch, runtime, controller)
                   && (Has(Entries(r), kind) <==> OwnEntry(kind, watch, runtime, controller))
  {
    var watch := TrimSpace(watchNamespace);
    if watch == "" {
      return Options(null, null);
    }
    var defaults := new NamespaceMap(map[watch := Plain]);
    assert watch in defaults.names;
    var table := new ByObjectMap();
    var controller, runtime := TrimSpace(controllerNamespace), TrimSpace(acpRuntimeNamespace);
    ghost var names := (kind: Kind) => BaseNames(kind, watch, runtime, controller);
    AddEntries(table, watch, runtime, controller);
    r := Options(defaults, table);
    forall kind
      ensures Names(table.entries, defaults, kind) == names(kind)
      ensures Has(table.entries, kind) <==> OwnEntry(kind, watch, runtime, controller)
    {
      ShownNames(table.entries, names, k => OwnEntry(k, watch, runtime, controller), defaults, kind);
    }
  }

  lemma NothingInEmpty()
    ensures OnePerKind(map[]) && NoNilHostEntry(map[])
  {
  }

  /**
   The two together, as the manager is configured: the host namespace joins exactly the four host types, and
   every other type caches what it would without agent hosts.
   */
  method ConfigureCache(watchNamespace: string, acpRuntimeNamespace: string, controllerNamespace: string,
                        hostNamespace: string)
    returns (r: Options)
    ensures TrimSpace(watchNamespace) == "" ==> r == Options(null, null)
    ensures TrimSpace(watchNamespace) != "" ==>
              && r.defaults != null && OnePerKind(Entries(r))
              && forall kind ::
                   var watch, runtime, controller, host :=
                     TrimSpace(watchNamespace), TrimSpace(acpRuntimeNamespace), TrimSpace(controllerNamespace),
                     TrimSpace(hostNamespace);
                   && Names(Entries(r), r.defaults, kind) ==
                      (var names := BaseNames(kind, watch, runtime, controller);
                       if host != "" && kind in HOST_KINDS then names[host := Plain] else names)
                   && (Has(Entries(r), kind) <==>
                         OwnEntry(kind, watch, runtime, controller) || (host != "" && kind in HOST_KINDS))
  {
    hide Names, Has, NoNilHostEntry, BaseNames, OwnEntry, GainsHost;
    r := ManagerCacheOptions(watchNamespace, acpRuntimeNamespace, controllerNamespace);
    if TrimSpace(watchNamespace) == "" {
      NothingInEmpty();
    }
    label built:
    ghost var base := r;
    ghost var written;
    r, written := AgentHostCacheOptions(r, hostNamespace);
    if TrimSpace(watchNamespace) != "" {
      forall kind
        ensures View(Entries(r), r.defaults)[kind] == Shown(Names(Entries(r), r.defaults, kind), Has(Entries(r), kind))
      {
      }
      assert forall kind :: old@built(View(Entries(base), base.defaults))[kind] ==
                            old@built(Shown(Names(Entries(base), base.defaults, kind), Has(Entries(base), kind)));
    }
  }
}
