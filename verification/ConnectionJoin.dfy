/**
 The readiness of a person's linked accounts: the join of each link with its provider's acceptance and with
 the person's other links, written once on structs (the table) and once on raw JSON objects (structured output).
 */
module ConnectionJoin {
  import opened Prelude
  import opened Json

  datatype ConnectionView = ConnectionView(
    name: string, namespace: string, provider: string, mode: string, state: string, ready: bool,
    linkedAt: string, message: string, grantSequence: int, deleting: bool)

  const STATE_READY := "Ready"
  const DISCONNECTING := "Disconnecting"
  const DUPLICATE_SUFFIX := " (duplicate link)"
  const NOT_USABLE_SUFFIX := " (not usable)"
  const UNAVAILABLE_SUFFIX := " (provider unavailable)"
  const DISCONNECTING_MESSAGE :=
    "this link is being disconnected; it will disappear once its tokens are revoked "
    + "where the provider supports it and deleted"
  const DUPLICATE_MESSAGE :=
    "you hold several links to this provider; disconnect the extra ones before its tools can run"
  const UNAVAILABLE_MESSAGE := "the provider is not accepted right now, so this link cannot be used"

  /** joinProviderReadiness. */
  function Join(item: ConnectionView, providersReady: map<string, bool>, duplicated: set<string>): ConnectionView {
    if item.deleting then
      item.(ready := false, state := DISCONNECTING, message := DISCONNECTING_MESSAGE)
    else if item.provider in duplicated then
      item.(ready := false, state := item.state + DUPLICATE_SUFFIX, message := DUPLICATE_MESSAGE)
    else if !item.ready then
      if item.state == STATE_READY then item.(state := item.state + NOT_USABLE_SUFFIX) else item
    else if item.provider in providersReady && providersReady[item.provider] then item
    else
      item.(ready := false, state := item.state + UNAVAILABLE_SUFFIX,
            message := if item.message == "" then UNAVAILABLE_MESSAGE else item.message)
  }

  // ---------- raw items ----------

  /** A type assertion to string; anything else gives the empty string. */
  function Text(fields: map<string, Json>, key: string): string {
    if key in fields && fields[key].Str? then fields[key].s else ""
  }

  function Flag(fields: map<string, Json>, key: string): bool {
    key in fields && fields[key].Bool? && fields[key].b
  }

  function Amount(fields: map<string, Json>, key: string): int {
    if key in fields && fields[key].Number? then fields[key].n else 0
  }

  /** What the object decodes to as a connectionView. */
  function ViewOf(fields: map<string, Json>): ConnectionView {
    ConnectionView(Text(fields, "name"), Text(fields, "namespace"), Text(fields, "provider"), Text(fields, "mode"),
                   Text(fields, "state"), Flag(fields, "ready"), Text(fields, "linkedAt"), Text(fields, "message"),
                   Amount(fields, "grantSequence"), Flag(fields, "deleting"))
  }

  predicate TextOrNothing(fields: map<string, Json>, key: string) {
    key in fields ==> fields[key].Str? || fields[key].Null?
  }

  /** The object decodes without a type error. */
  predicate WellTyped(fields: map<string, Json>) {
    && TextOrNothing(fields, "name") && TextOrNothing(fields, "namespace") && TextOrNothing(fields, "provider")
    && TextOrNothing(fields, "mode") && TextOrNothing(fields, "state") && TextOrNothing(fields, "linkedAt")
    && TextOrNothing(fields, "message")
    && ("ready" in fields ==> fields["ready"].Bool? || fields["ready"].Null?)
    && ("deleting" in fields ==> fields["deleting"].Bool? || fields["deleting"].Null?)
    && ("grantSequence" in fields ==> fields["grantSequence"].Number? || fields["grantSequence"].Null?)
  }

  /** The three keys the join writes differ from each other and from every other key of the view. */
  lemma KeysDiffer()
    ensures |"ready"| == 5 && |"state"| == 5 && |"message"| == 7 && "ready" != "state"
    ensures |"name"| == 4 && |"namespace"| == 9 && |"provider"| == 8 && |"mode"| == 4 && |"linkedAt"| == 8
    ensures |"grantSequence"| == 13 && |"deleting"| == 8
  {
    assert "ready"[0] == 'r' && "state"[0] == 's';
  }

  lemma SettingReady(fields: map<string, Json>, b: bool)
    ensures ViewOf(fields["ready" := Bool(b)]) == ViewOf(fields).(ready := b)
    ensures WellTyped(fields) ==> WellTyped(fields["ready" := Bool(b)])
  {
    KeysDiffer();
  }

  lemma SettingState(fields: map<string, Json>, s: string)
    ensures ViewOf(fields["state" := Str(s)]) == ViewOf(fields).(state := s)
    ensures WellTyped(fields) ==> WellTyped(fields["state" := Str(s)])
  {
    KeysDiffer();
  }

  lemma SettingMessage(fields: map<string, Json>, s: string)
    ensures ViewOf(fields["message" := Str(s)]) == ViewOf(fields).(message := s)
    ensures WellTyped(fields) ==> WellTyped(fields["message" := Str(s)])
  {
    KeysDiffer();
  }

  const WRITTEN_KEYS := {"ready", "state", "message"}

  lemma ViewFields(fields: map<string, Json>)
    ensures var v := ViewOf(fields);
            && v.deleting == Flag(fields, "deleting") && v.ready == Flag(fields, "ready")
            && v.provider == Text(fields, "provider") && v.state == Text(fields, "state")
            && v.message == Text(fields, "message")
  {
  }

  /** One object of the API's answer, which structured output changes in place. */
  class RawItem {
    var fields: map<string, Json>

    constructor (fields: map<string, Json>)
      ensures this.fields == fields
    {
      this.fields := fields;
    }

    method SetReady(b: bool)
      modifies this
      ensures fields == old(fields)["ready" := Bool(b)]
      ensures ViewOf(fields) == ViewOf(old(fields)).(ready := b)
      ensures WellTyped(old(fields)) ==> WellTyped(fields)
    {
      SettingReady(fields, b);
      fields := fields["ready" := Bool(b)];
    }

    method SetState(s: string)
      modifies this
      ensures fields == old(fields)["state" := Str(s)]
      ensures ViewOf(fields) == ViewOf(old(fields)).(state := s)
      ensures WellTyped(old(fields)) ==> WellTyped(fields)
    {
      SettingState(fields, s);
      fields := fields["state" := Str(s)];
    }

    method SetMessage(s: string)
      modifies this
      ensures fields == old(fields)["message" := Str(s)]
      ensures ViewOf(fields) == ViewOf(old(fields)).(message := s)
      ensures WellTyped(old(fields)) ==> WellTyped(fields)
    {
      SettingMessage(fields, s);
      fields := fields["message" := Str(s)];
    }

    /** joinProviderReadinessInto: the object decodes to what the struct version gives, and keeps its other keys. */
    method JoinInto(providersReady: map<string, bool>, duplicated: set<string>)
      modifies this
      ensures ViewOf(fields) == Join(ViewOf(old(fields)), providersReady, duplicated)
      ensures WellTyped(old(fields)) ==> WellTyped(fields)
      ensures fields - WRITTEN_KEYS == old(fields) - WRITTEN_KEYS
    {
      hide ViewOf, WellTyped;
      ViewFields(fields);
      if Flag(fields, "deleting") {
        SetReady(false);
        SetState(DISCONNECTING);
        SetMessage(DISCONNECTING_MESSAGE);
        return;
      }
      var provider := Text(fields, "provider");
      if provider in duplicated {
        var state := Text(fields, "state");
        SetReady(false);
        SetState(state + DUPLICATE_SUFFIX);
        SetMessage(DUPLICATE_MESSAGE);
        return;
      }
      if !Flag(fields, "ready") {
        var state := Text(fields, "state");
        if state == STATE_READY {
          SetState(state + NOT_USABLE_SUFFIX);
        }
        return;
      }
      if provider in providersReady && providersReady[provider] {
        return;
      }
      var state, message := Text(fields, "state"), Text(fields, "message");
      SetReady(false);
      SetState(state + UNAVAILABLE_SUFFIX);
      if message == "" {
        SetMessage(UNAVAILABLE_MESSAGE);
      }
    }
  }

  // ---------- duplicates ----------

  function Occurrences(items: seq<ConnectionView>, provider: string): nat {
    if items == [] then 0
    else Occurrences(items[..|items| - 1], provider) + if items[|items| - 1].provider == provider then 1 else 0
  }

  predicate NamedAt(items: seq<ConnectionView>, i: nat, provider: string) {
    i < |items| && items[i].provider == provider
  }

  lemma {:induction false} OccursOnce(items: seq<ConnectionView>, provider: string)
    ensures Occurrences(items, provider) >= 1 <==> exists i: nat :: NamedAt(items, i, provider)
  {
    if items != [] {
      var n := |items| - 1;
      var front := items[..n];
      OccursOnce(front, provider);
      if items[n].provider == provider {
        assert NamedAt(items, n, provider);
      }
      if i: nat :| NamedAt(items, i, provider) && i < n {
        assert NamedAt(front, i, provider);
      }
      if i: nat :| NamedAt(front, i, provider) {
        assert NamedAt(items, i, provider);
      }
    }
  }

  /** A provider is duplicated when two of the listed links name it. */
  ghost predicate Duplicated(items: seq<ConnectionView>, provider: string) {
    exists i: nat, j: nat :: i < j && NamedAt(items, i, provider) && NamedAt(items, j, provider)
  }

  lemma {:induction false} OccursTwice(items: seq<ConnectionView>, provider: string)
    ensures Occurrences(items, provider) >= 2 <==> Duplicated(items, provider)
  {
    if items != [] {
      var n := |items| - 1;
      var front := items[..n];
      OccursOnce(front, provider);
      OccursTwice(front, provider);
      if Duplicated(front, provider) {
        var i: nat, j: nat :| i < j && NamedAt(front, i, provider) && NamedAt(front, j, provider);
        assert NamedAt(items, i, provider) && NamedAt(items, j, provider);
      }
      if items[n].provider == provider && Occurrences(front, provider) >= 1 {
        var i: nat :| NamedAt(front, i, provider);
        assert NamedAt(items, i, provider) && NamedAt(items, n, provider);
      }
      if Duplicated(items, provider) {
        var i: nat, j: nat :| i < j && NamedAt(items, i, provider) && NamedAt(items, j, provider);
        assert NamedAt(front, i, provider);
        if j < n {
          assert NamedAt(front, j, provider);
        }
      }
    }
  }

  /** duplicateProviders. */
  method DuplicateProviders(items: seq<ConnectionView>) returns (duplicated: set<string>)
    ensures forall provider :: provider in duplicated <==> Duplicated(items, provider)
  {
    var counts: map<string, nat> := map[];
    for i := 0 to |items|
      invariant forall p :: (p in counts ==> counts[p] == Occurrences(items[..i], p) && counts[p] > 0)
      invariant forall p :: p !in counts ==> Occurrences(items[..i], p) == 0
    {
      var p := items[i].provider;
      assert items[..i + 1][..i] == items[..i];
      counts := counts[p := if p in counts then counts[p] + 1 else 1];
    }
    assert items[..|items|] == items;
    duplicated := set p | p in counts && counts[p] > 1;
    forall provider
      ensures provider in duplicated <==> Duplicated(items, provider)
    {
      OccursTwice(items, provider);
    }
  }

  // ---------- the list ----------

  /** The table's rows. */
  function Table(items: seq<ConnectionView>, providersReady: map<string, bool>, duplicated: set<string>):
    (rows: seq<ConnectionView>)
    ensures |rows| == |items|
    ensures forall i :: 0 <= i < |items| ==> rows[i] == Join(items[i], providersReady, duplicated)
  {
    seq(|items|, i requires 0 <= i < |items| => Join(items[i], providersReady, duplicated))
  }

  /**
   A link is shown ready exactly when the API says so, it is not being disconnected, its provider is listed and
   accepted, and no other listed link names that provider.
   */
  lemma ReadyExactlyWhenUsable(
      items: seq<ConnectionView>, i: nat, providersReady: map<string, bool>, duplicated: set<string>)
    requires i < |items|
    requires forall provider :: provider in duplicated <==> Duplicated(items, provider)
    ensures Join(items[i], providersReady, duplicated).ready <==>
            && items[i].ready && !items[i].deleting
            && items[i].provider in providersReady && providersReady[items[i].provider]
            && forall j: nat :: j != i ==> !NamedAt(items, j, items[i].provider)
  {
    var provider := items[i].provider;
    assert NamedAt(items, i, provider);
    if j: nat :| j != i && NamedAt(items, j, provider) {
      var a, b := if i < j then i else j, if i < j then j else i;
      assert a < b && NamedAt(items, a, provider) && NamedAt(items, b, provider);
      assert Duplicated(items, provider);
    }
  }

  /** A link in the API's answer; a JSON null decodes to the zero view, and to a nil map that cannot be written. */
  function ViewOfLink(item: RawItem?): ConnectionView
    reads item
  {
    if item == null then ViewOf(map[]) else ViewOf(item.fields)
  }

  /** The zero view is joined to itself, unless several links name no provider. */
  lemma JoinOfNothing(providersReady: map<string, bool>, duplicated: set<string>)
    requires "" !in duplicated
    ensures Join(ViewOf(map[]), providersReady, duplicated) == ViewOf(map[])
  {
    assert |STATE_READY| == 5;
  }

  /**
   The list command's structured output: it decodes to exactly the table's rows. It panics exactly if the answer
   holds a null for a link while several links name no provider, for then the nil map would be written.
   */
  method JoinAll(payload: seq<RawItem?>, providersReady: map<string, bool>)
    returns (views: seq<ConnectionView>, duplicated: set<string>, panicked: bool)
    requires forall i :: 0 <= i < |payload| && payload[i] != null ==> WellTyped(payload[i].fields)
    requires forall i, j :: 0 <= i < j < |payload| && payload[i] != null ==> payload[i] != payload[j]
    modifies payload
    ensures |views| == |payload| && forall i :: 0 <= i < |payload| ==> views[i] == old(ViewOfLink(payload[i]))
    ensures forall provider :: provider in duplicated <==> Duplicated(views, provider)
    ensures panicked <==> null in payload && Duplicated(views, "")
    ensures !panicked ==>
              forall i :: 0 <= i < |payload| ==>
                && ViewOfLink(payload[i]) == Table(views, providersReady, duplicated)[i]
                && (payload[i] != null ==>
                      && WellTyped(payload[i].fields)
                      && payload[i].fields - WRITTEN_KEYS == old(payload[i].fields) - WRITTEN_KEYS)
  {
    hide ViewOf, WellTyped, Join, Duplicated;
    panicked, views := false, [];
    for i := 0 to |payload|
      invariant |views| == i && forall j :: 0 <= j < i ==> views[j] == old(ViewOfLink(payload[j]))
      invariant forall j :: 0 <= j < |payload| && payload[j] != null ==> payload[j].fields == old(payload[j].fields)
    {
      views := views + [ViewOfLink(payload[i])];
    }
    duplicated := DuplicateProviders(views);
    for i := 0 to |payload|
      invariant forall j :: i <= j < |payload| && payload[j] != null ==> payload[j].fields == old(payload[j].fields)
      invariant forall j :: 0 <= j < i && payload[j] == null ==> "" !in duplicated
      invariant forall j :: 0 <= j < i ==>
                  && ViewOfLink(payload[j]) == Join(views[j], providersReady, duplicated)
                  && (payload[j] != null ==>
                        && WellTyped(payload[j].fields)
                        && payload[j].fields - WRITTEN_KEYS == old(payload[j].fields) - WRITTEN_KEYS)
    {
      if payload[i] == null {
        if "" in duplicated {
          panicked := true;
          return;
        }
        JoinOfNothing(providersReady, duplicated);
      } else {
        payload[i].JoinInto(providersReady, duplicated);
      }
    }
  }
}
